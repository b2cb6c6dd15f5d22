/** The in/out state of each tracked person in each zone, with throttled events
    (services/cv-pipeline/zone_manager.py). A run of updates, clean-ups and
    configuration loads is followed through the marks it leaves. */
module ThrottledZones {
  import opened Options
  import opened Parts
  import opened RayCasting
  import Segments
  import Strtoul

  datatype Shape = Polygon | Line | OtherShape

  datatype Zone = Zone(name: string, shape: Shape, points: seq<Point>)

  datatype Kind = Entry | Exit

  /** The parts of a throttle key. */
  datatype Key = Key(track: int, name: string, kind: Kind)

  /** One call of `update`. */
  datatype Sighting = Sighting(track: int, p: Point, prev: Option<Point>, time: real)

  type Presence = map<string, real>

  datatype State = State(zones: seq<Zone>, throttle: real,
                         inside: map<int, Presence>, last: map<Key, real>)

  /** What happened, in order: events, and clean-ups of a track. */
  datatype Mark = Event(key: Key, time: real) | Cleaned(track: int)

  /** `raised`: the geometry of some zone divided by zero, so the call returned no
      events; what it had done until then stays. */
  datatype Outcome = Outcome(state: State, marks: seq<Mark>, raised: bool)

  // ----- operations as functions

  function InZone(z: Zone, u: Sighting): (r: Answer) {
    if z.shape == Polygon && |z.points| >= 3 then Contains(z.points, u.p, PIPELINE_EPSILON)
    else if z.shape == Line && u.prev.Some? then Inside(Segments.CrossedLine(u.prev.value, u.p, z.points))
    else Inside(false)
  }

  predicate Within(s: State, track: int, name: string) {
    track in s.inside && name in s.inside[track]
  }

  /** self._last_event.get(key, 0) */
  function LastOf(s: State, k: Key): (r: real) {
    if k in s.last then s.last[k] else 0.0
  }

  /** The kind of event a zone calls for, if any. */
  datatype Need = Nothing | Needs(kind: Kind)

  function NeedOf(z: Zone, here: bool, was: bool): (r: Need) {
    if here && !was then Needs(Entry)
    else if !here && was && z.shape == Polygon then Needs(Exit)
    else Nothing
  }

  function Fire(s: State, k: Key, time: real): (r: State)
    requires k.track in s.inside
  {
    var present := s.inside[k.track];
    s.(inside := s.inside[k.track := if k.kind == Entry then present[k.name := time] else present - {k.name}],
       last := s.last[k := time])
  }

  /** The body of the loop for one zone whose geometry said `here`. */
  function VisitZone(s: State, u: Sighting, z: Zone, here: bool): (r: Outcome)
    requires u.track in s.inside
    ensures u.track in r.state.inside && !r.raised
  {
    var need := NeedOf(z, here, Within(s, u.track, z.name));
    if need.Nothing? then Outcome(s, [], false)
    else
      var k := Key(u.track, z.name, need.kind);
      if u.time - LastOf(s, k) >= s.throttle then Outcome(Fire(s, k, u.time), [Event(k, u.time)], false)
      else Outcome(s, [], false)
  }

  function Present(s: State, track: int): (r: State) {
    if track in s.inside then s else s.(inside := s.inside[track := map[]])
  }

  function Visit(s: State, u: Sighting, zones: seq<Zone>): (r: Outcome)
    ensures u.track in r.state.inside
  {
    if zones == [] then Outcome(Present(s, u.track), [], false)
    else
      var o := Visit(s, u, zones[..|zones| - 1]);
      var z := zones[|zones| - 1];
      if o.raised then o
      else
        match InZone(z, u)
        case ZeroDivision => o.(raised := true)
        case Inside(here) =>
          var v := VisitZone(o.state, u, z, here);
          Outcome(v.state, o.marks + v.marks, false)
  }

  datatype Op = Update(u: Sighting) | Cleanup(track: int) | Load(zones: seq<Zone>)

  function Apply(s: State, op: Op): (r: Outcome) {
    match op
    case Update(u) => Visit(s, u, s.zones)
    case Cleanup(t) => Outcome(s.(inside := s.inside - {t}), [Cleaned(t)], false)
    case Load(zones) => Outcome(s.(zones := zones), [], false)
  }

  function Initial(throttle: real): (r: State) {
    State([], throttle, map[], map[])
  }

  /** The state and all the marks after a run. */
  function Run(throttle: real, ops: seq<Op>): (r: (State, seq<Mark>)) {
    if ops == [] then (Initial(throttle), [])
    else
      var before := Run(throttle, ops[..|ops| - 1]);
      var o := Apply(before.0, ops[|ops| - 1]);
      (o.state, before.1 + o.marks)
  }

  // ----- what one zone does

  /** A zone drawn as a line counts as reached exactly when the last position is
      known and the step from it meets the line in one point that is an end of
      neither; it never divides by zero. */
  lemma LineReachedExactlyWhen(z: Zone, u: Sighting)
    requires z.shape == Line && |z.points| >= 2
    ensures InZone(z, u) == Inside(
              u.prev.Some? && Segments.Turn(u.prev.value, u.p, z.points[0], z.points[1]) != 0.0
              && exists s, t :: 0.0 < s < 1.0 && 0.0 < t < 1.0
                   && Segments.Along(u.prev.value, u.p, s) == Segments.Along(z.points[0], z.points[1], t))
  {
    hide Segments.CrossedLine, Segments.Turn, Segments.Along;
    if u.prev.Some? {
      Segments.CrossedExactlyWhen(u.prev.value, u.p, z.points);
      assert forall t :: Segments.Between(t) <==> 0.0 < t < 1.0;
    }
  }

  /** A polygon is the ray casting of the pipeline; one of fewer than three points
      and a zone of another shape are never reached, and a line of fewer than two
      neither. */
  lemma PolygonReachedExactlyWhen(z: Zone, u: Sighting)
    ensures z.shape == Polygon && |z.points| >= 3 ==> InZone(z, u) == Contains(z.points, u.p, 0.000000001)
    ensures z.shape == Polygon && |z.points| < 3 ==> InZone(z, u) == Inside(false)
    ensures z.shape == Line && (u.prev.None? || |z.points| < 2) ==> InZone(z, u) == Inside(false)
    ensures z.shape == OtherShape ==> InZone(z, u) == Inside(false)
  {
    hide Contains;
  }

  /** A zone fires an entry exactly when it is reached by somebody outside, and an
      exit exactly when it is a polygon left by somebody inside, in both cases when
      the stored time of that event, 0 without one, is at least the throttle ago;
      the event has the person, the zone, and the time of the sighting, and the
      record of that person and zone, and nothing else, follows it. */
  lemma FiresExactly(s: State, u: Sighting, z: Zone, here: bool)
    requires u.track in s.inside
    ensures var was := z.name in s.inside[u.track];
            var entry, exit := Key(u.track, z.name, Entry), Key(u.track, z.name, Exit);
            var due := (k: Key) => u.time - (if k in s.last then s.last[k] else 0.0) >= s.throttle;
            var r := VisitZone(s, u, z, here);
            && r.marks == (if here && !was && due(entry) then [Event(entry, u.time)]
                           else if !here && was && z.shape == Polygon && due(exit) then [Event(exit, u.time)] else [])
            && r.state.zones == s.zones && r.state.throttle == s.throttle
            && r.state.last == (if r.marks != [] then s.last[r.marks[0].key := u.time] else s.last)
            && (z.name in r.state.inside[u.track] <==> if r.marks != [] then here else was)
            && (r.marks != [] && here ==> r.state.inside[u.track][z.name] == u.time)
            && r.state.inside.Keys == s.inside.Keys
            && (forall t :: t in s.inside && t != u.track ==> r.state.inside[t] == s.inside[t])
            && (forall name :: name != z.name ==> (name in r.state.inside[u.track] <==> name in s.inside[u.track]))
  {
  }

  // ----- what the marks say

  /** Is the person in the zone, going by the events since the last clean-up? */
  predicate In(marks: seq<Mark>, track: int, name: string) {
    marks != [] &&
    match marks[|marks| - 1]
    case Cleaned(t) => t != track && In(marks[..|marks| - 1], track, name)
    case Event(k, _) =>
      if k.track == track && k.name == name then k.kind == Entry
      else In(marks[..|marks| - 1], track, name)
  }

  /** The time of the last event with this key, 0 without one. */
  function LastTime(marks: seq<Mark>, k: Key): (r: real) {
    if marks == [] then 0.0
    else
      match marks[|marks| - 1]
      case Cleaned(_) => LastTime(marks[..|marks| - 1], k)
      case Event(j, time) => if j == k then time else LastTime(marks[..|marks| - 1], k)
  }

  /** May this mark follow those? An entry needs the person outside, an exit inside,
      and both the throttle since the last event of the same key. */
  predicate MayFollow(marks: seq<Mark>, m: Mark, throttle: real) {
    match m
    case Cleaned(_) => true
    case Event(k, time) =>
      (In(marks, k.track, k.name) <==> k.kind == Exit)
      && time - LastTime(marks, k) >= throttle
  }

  ghost predicate Legal(marks: seq<Mark>, throttle: real) {
    forall n :: 0 <= n < |marks| ==> MayFollow(marks[..n], marks[n], throttle)
  }

  /** The state agrees with the marks. */
  ghost predicate Agrees(s: State, marks: seq<Mark>) {
    && (forall track, name :: Within(s, track, name) <==> In(marks, track, name))
    && (forall track, name :: Within(s, track, name) ==>
          s.inside[track][name] == LastTime(marks, Key(track, name, Entry)))
    && (forall k :: LastOf(s, k) == LastTime(marks, k))
  }

  // ----- every run alternates and keeps its distance

  lemma LegalSnoc(marks: seq<Mark>, m: Mark, throttle: real)
    requires Legal(marks, throttle) && MayFollow(marks, m, throttle)
    ensures Legal(marks + [m], throttle)
  {
    hide MayFollow;
    var more := marks + [m];
    forall n | 0 <= n < |more| ensures MayFollow(more[..n], more[n], throttle) {
      if n < |marks| {
        assert more[..n] == marks[..n] && more[n] == marks[n];
      } else {
        assert more[..n] == marks;
      }
    }
  }

  lemma SnocIn(marks: seq<Mark>, m: Mark, track: int, name: string)
    ensures In(marks + [m], track, name)
            == match m
               case Cleaned(t) => t != track && In(marks, track, name)
               case Event(k, _) => if k.track == track && k.name == name then k.kind == Entry
                                   else In(marks, track, name)
  {
    assert (marks + [m])[..|marks|] == marks;
  }

  lemma SnocLast(marks: seq<Mark>, m: Mark, k: Key)
    ensures LastTime(marks + [m], k) == if m.Event? && m.key == k then m.time else LastTime(marks, k)
  {
    assert (marks + [m])[..|marks|] == marks;
  }

  lemma FireAgrees(s: State, marks: seq<Mark>, k: Key, time: real)
    requires Agrees(s, marks) && k.track in s.inside
    ensures Agrees(Fire(s, k, time), marks + [Event(k, time)])
  {
    hide In, LastTime;
    var r, more := Fire(s, k, time), marks + [Event(k, time)];
    forall j ensures LastOf(r, j) == LastTime(more, j) { SnocLast(marks, Event(k, time), j); }
    forall track, name
      ensures Within(r, track, name) <==> In(more, track, name)
      ensures Within(r, track, name) ==> r.inside[track][name] == LastTime(more, Key(track, name, Entry))
    {
      SnocIn(marks, Event(k, time), track, name);
      SnocLast(marks, Event(k, time), Key(track, name, Entry));
      FireWithin(s, k, time, track, name);
    }
  }

  lemma FireWithin(s: State, k: Key, time: real, track: int, name: string)
    requires k.track in s.inside
    ensures var r := Fire(s, k, time);
            var same := k.track == track && k.name == name;
            && (Within(r, track, name) <==> if same then k.kind == Entry else Within(s, track, name))
            && (Within(r, track, name) ==>
                  r.inside[track][name] == if same then time else s.inside[track][name])
  {
  }

  lemma VisitZoneLegal(s: State, marks: seq<Mark>, u: Sighting, z: Zone, here: bool)
    requires Agrees(s, marks) && Legal(marks, s.throttle) && u.track in s.inside
    ensures var r := VisitZone(s, u, z, here);
            Agrees(r.state, marks + r.marks) && Legal(marks + r.marks, s.throttle)
            && r.state.throttle == s.throttle
  {
    hide Agrees, Legal, In, LastTime;
    var r := VisitZone(s, u, z, here);
    if r.marks == [] {
      assert marks + [] == marks;
    } else {
      var k := r.marks[0].key;
      FireAgrees(s, marks, k, u.time);
      AgreesAt(s, marks, k);
      LegalSnoc(marks, r.marks[0], s.throttle);
    }
  }

  lemma AgreesAt(s: State, marks: seq<Mark>, k: Key)
    requires Agrees(s, marks)
    ensures Within(s, k.track, k.name) <==> In(marks, k.track, k.name)
    ensures LastOf(s, k) == LastTime(marks, k)
  {
  }

  lemma PresentAgrees(s: State, marks: seq<Mark>, track: int)
    requires Agrees(s, marks)
    ensures Agrees(Present(s, track), marks)
  {
    hide In, LastTime;
    var r := Present(s, track);
    forall t, name
      ensures Within(r, t, name) <==> Within(s, t, name)
      ensures Within(s, t, name) ==> r.inside[t][name] == s.inside[t][name]
    {
    }
    forall k ensures LastOf(r, k) == LastOf(s, k) {}
  }

  lemma {:induction false} VisitLegal(s: State, marks: seq<Mark>, u: Sighting, zones: seq<Zone>)
    requires Agrees(s, marks) && Legal(marks, s.throttle)
    ensures var r := Visit(s, u, zones);
            Agrees(r.state, marks + r.marks) && Legal(marks + r.marks, s.throttle)
            && r.state.throttle == s.throttle
  {
    hide Agrees, Legal, VisitZone, InZone;
    if zones == [] {
      PresentAgrees(s, marks, u.track);
      assert marks + [] == marks;
    } else {
      VisitLegal(s, marks, u, zones[..|zones| - 1]);
      var o := Visit(s, u, zones[..|zones| - 1]);
      var z := zones[|zones| - 1];
      if !o.raised && InZone(z, u).Inside? {
        var here := InZone(z, u).value;
        VisitZoneLegal(o.state, marks + o.marks, u, z, here);
        var v := VisitZone(o.state, u, z, here);
        assert marks + o.marks + v.marks == marks + (o.marks + v.marks);
      }
    }
  }

  lemma CleanupAgrees(s: State, marks: seq<Mark>, t: int)
    requires Agrees(s, marks)
    ensures Agrees(s.(inside := s.inside - {t}), marks + [Cleaned(t)])
  {
    hide In, LastTime;
    var r := s.(inside := s.inside - {t});
    forall k ensures LastOf(r, k) == LastTime(marks + [Cleaned(t)], k) { SnocLast(marks, Cleaned(t), k); }
    forall track, name
      ensures Within(r, track, name) <==> In(marks + [Cleaned(t)], track, name)
      ensures Within(r, track, name) ==>
                r.inside[track][name] == LastTime(marks + [Cleaned(t)], Key(track, name, Entry))
    {
      SnocIn(marks, Cleaned(t), track, name);
      SnocLast(marks, Cleaned(t), Key(track, name, Entry));
    }
  }

  /** State changes, over any run, for any geometry, any times and any
      configurations, updates that raise included: entries and
      exits of a person and zone alternate between clean-ups, starting with an
      entry; events of one kind are `throttle` apart, across clean-ups too, and the
      first is `throttle` after time 0; the stored state is what the events say,
      with the time of the last entry. */
  lemma {:induction false} EventsAlternateAndKeepDistance(throttle: real, ops: seq<Op>)
    ensures var r := Run(throttle, ops);
            Legal(r.1, throttle) && Agrees(r.0, r.1) && r.0.throttle == throttle
  {
    if ops != [] {
      EventsAlternateAndKeepDistance(throttle, ops[..|ops| - 1]);
      var before := Run(throttle, ops[..|ops| - 1]);
      ApplyLegal(before.0, before.1, ops[|ops| - 1]);
    }
  }

  lemma ApplyLegal(s: State, marks: seq<Mark>, op: Op)
    requires Agrees(s, marks) && Legal(marks, s.throttle)
    ensures var r := Apply(s, op);
            Agrees(r.state, marks + r.marks) && Legal(marks + r.marks, s.throttle)
            && r.state.throttle == s.throttle
  {
    match op
    case Update(u) =>
      hide Agrees, Legal, Visit;
      VisitLegal(s, marks, u, s.zones);
    case Cleanup(t) =>
      hide Agrees, Legal;
      CleanupAgrees(s, marks, t);
      LegalSnoc(marks, Cleaned(t), s.throttle);
    case Load(zones) =>
      hide In, LastTime, Legal;
      assert marks + [] == marks;
      var r := s.(zones := zones);
      assert forall t, name :: Within(r, t, name) <==> Within(s, t, name);
      assert forall k :: LastOf(r, k) == LastOf(s, k);
  }

  // ----- what the calls return

  /** What one operation lets its caller see: nothing of an update that raised. */
  function Shown(o: Outcome): (r: seq<Mark>) {
    if o.raised then [] else o.marks
  }

  /** The events returned along a run, with the clean-ups between them. */
  function Returned(throttle: real, ops: seq<Op>): (r: seq<Mark>) {
    if ops == [] then []
    else Returned(throttle, ops[..|ops| - 1]) + Shown(Apply(Run(throttle, ops[..|ops| - 1]).0, ops[|ops| - 1]))
  }

  /** Some update raised after it had entered or left a zone. */
  ghost predicate LosesEvents(throttle: real, ops: seq<Op>) {
    exists n :: 0 <= n < |ops| && Loses(Apply(Run(throttle, ops[..n]).0, ops[n]))
  }

  predicate Loses(o: Outcome) {
    o.raised && o.marks != []
  }

  lemma {:induction false} ReturnedLength(throttle: real, ops: seq<Op>)
    ensures |Returned(throttle, ops)| <= |Run(throttle, ops).1|
    ensures Returned(throttle, ops) == Run(throttle, ops).1 <==> !LosesEvents(throttle, ops)
  {
    hide Apply;
    if ops != [] {
      var m := |ops| - 1;
      var init := ops[..m];
      ReturnedLength(throttle, init);
      var o := Apply(Run(throttle, init).0, ops[m]);
      assert forall n :: 0 <= n < m ==> init[..n] == ops[..n] && init[n] == ops[n];
      LosesSnoc(throttle, ops);
      var shown, marks := Returned(throttle, init), Run(throttle, init).1;
      assert Returned(throttle, ops) == shown + Shown(o) && Run(throttle, ops).1 == marks + o.marks;
      if shown + Shown(o) == marks + o.marks {
        assert |shown| == |marks| && |Shown(o)| == |o.marks|;
        assert shown == (shown + Shown(o))[..|shown|] == marks;
      }
    }
  }

  lemma LosesSnoc(throttle: real, ops: seq<Op>)
    requires ops != []
    ensures LosesEvents(throttle, ops) <==>
            LosesEvents(throttle, ops[..|ops| - 1]) || Loses(Apply(Run(throttle, ops[..|ops| - 1]).0, ops[|ops| - 1]))
  {
    hide Apply, Run, Loses;
    var m := |ops| - 1;
    var init := ops[..m];
    forall n | 0 <= n < m ensures init[..n] == ops[..n] && init[n] == ops[n] {
    }
    if LosesEvents(throttle, init) {
      var n :| 0 <= n < m && Loses(Apply(Run(throttle, init[..n]).0, init[n]));
      assert Loses(Apply(Run(throttle, ops[..n]).0, ops[n]));
    }
    if LosesEvents(throttle, ops) {
      var n :| 0 <= n < |ops| && Loses(Apply(Run(throttle, ops[..n]).0, ops[n]));
      if n < m {
        assert Loses(Apply(Run(throttle, init[..n]).0, init[n]));
      }
    }
  }

  /** The events returned are the state changes if and only if no update raised
      after one; they then alternate and keep their distance as those do. */
  lemma ReturnedExactlyWhen(throttle: real, ops: seq<Op>)
    ensures Returned(throttle, ops) == Run(throttle, ops).1 <==> !LosesEvents(throttle, ops)
    ensures !LosesEvents(throttle, ops) ==> Legal(Returned(throttle, ops), throttle)
  {
    hide LosesEvents, Legal, Agrees, Run, Returned;
    ReturnedLength(throttle, ops);
    EventsAlternateAndKeepDistance(throttle, ops);
  }

  /** A square and, after it, a rectangle exactly epsilon high inside it. */
  const SQUARE: Box := Box(0.0, 0.0, 1.0, 1.0)
  const SLIT: Box := Box(0.0, 0.5, 1.0, 0.5 + PIPELINE_EPSILON)

  function SquareAndSlit(): (zones: seq<Zone>) {
    [Zone.Zone("a", Polygon, Corners(SQUARE)), Zone.Zone("b", Polygon, Corners(SLIT))]
  }

  /** In the square at the height of the slit, then far away. */
  function InThenOut(): (ops: seq<Op>) {
    [Load(SquareAndSlit()),
     Update(Sighting(7, Point(0.5, 0.5), None, 10.0)),
     Update(Sighting(7, Point(2.0, 2.0), None, 20.0))]
  }

  lemma SquareAndSlitGeometry(u: Sighting)
    requires u.p == Point(0.5, 0.5) || u.p == Point(2.0, 2.0)
    ensures var zones, here := SquareAndSlit(), u.p == Point(0.5, 0.5);
            && InZone(zones[0], u) == Inside(here)
            && InZone(zones[1], u) == if here then ZeroDivision else Inside(false)
  {
    hide Contains;
    RectangleIsHalfOpenBox(SQUARE, u.p, PIPELINE_EPSILON);
    RectangleIsHalfOpenBox(SLIT, u.p, PIPELINE_EPSILON);
  }

  lemma VisitTwo(s: State, u: Sighting, a: Zone, b: Zone)
    requires InZone(a, u).Inside?
    ensures var one := VisitZone(Present(s, u.track), u, a, InZone(a, u).value);
            Visit(s, u, [a, b]) ==
            match InZone(b, u)
            case ZeroDivision => Outcome(one.state, one.marks, true)
            case Inside(here) =>
              var two := VisitZone(one.state, u, b, here);
              Outcome(two.state, one.marks + two.marks, false)
  {
    hide InZone, VisitZone;
    assert [a, b][..1] == [a] && [a][..0] == [];
    assert Visit(s, u, []) == Outcome(Present(s, u.track), [], false);
    var one := VisitZone(Present(s, u.track), u, a, InZone(a, u).value);
    assert [] + one.marks == one.marks;
    assert Visit(s, u, [a]) == Outcome(one.state, one.marks, false);
  }

  /** The events returned need not alternate: the entry is lost with the update
      that raised after it, and the next one returns an exit. */
  lemma ExitWithoutEntry()
    ensures Returned(2.0, InThenOut()) == [Event(Key(7, "a", Exit), 20.0)]
  {
    hide InZone, Contains, Corners, Visit;
    var ops, zones := InThenOut(), SquareAndSlit();
    var u, v := ops[1].u, ops[2].u;
    SquareAndSlitGeometry(u);
    SquareAndSlitGeometry(v);
    var s0 := Initial(2.0).(zones := zones);
    VisitTwo(s0, u, zones[0], zones[1]);
    assert zones == [zones[0], zones[1]];
    var first := Visit(s0, u, zones);
    assert first.raised && first.state.zones == zones;
    VisitTwo(first.state, v, zones[0], zones[1]);
    var second := Visit(first.state, v, zones);
    assert second.marks == [Event(Key(7, "a", Exit), 20.0)] + [] && !second.raised;
    RunOfThree(2.0, ops, s0, first, second);
  }

  lemma RunOfThree(throttle: real, ops: seq<Op>, s0: State, first: Outcome, second: Outcome)
    requires |ops| == 3
    requires Apply(Initial(throttle), ops[0]) == Outcome(s0, [], false)
    requires Apply(s0, ops[1]) == first && Apply(first.state, ops[2]) == second
    ensures Returned(throttle, ops) == Shown(first) + Shown(second)
  {
    hide Apply, Shown;
    assert ops[..2][..1] == ops[..1] && ops[..1][..0] == [];
    assert Run(throttle, ops[..1]).0 == s0;
    assert Run(throttle, ops[..2]).0 == first.state;
    assert Shown(Outcome(s0, [], false)) == [] by {
      NothingShown(s0);
    }
    assert Returned(throttle, ops[..1]) == [];
    assert Returned(throttle, ops[..2]) == [] + Shown(first);
  }

  lemma NothingShown(s: State)
    ensures Shown(Outcome(s, [], false)) == []
  {
  }

  // ----- lines

  /** Events of one person and zone after the last clean-up. */
  function Since(marks: seq<Mark>, track: int, name: string): (n: nat) {
    if marks == [] then 0
    else
      match marks[|marks| - 1]
      case Cleaned(t) => if t == track then 0 else Since(marks[..|marks| - 1], track, name)
      case Event(k, _) =>
        Since(marks[..|marks| - 1], track, name) + if k.track == track && k.name == name then 1 else 0
  }

  ghost predicate NeverExits(marks: seq<Mark>, name: string) {
    forall m :: m in marks && m.Event? && m.key.name == name ==> m.key.kind == Entry
  }

  /** Without exits, alternation leaves room for one entry. */
  lemma {:induction false} OneEntry(marks: seq<Mark>, track: int, name: string, throttle: real)
    requires Legal(marks, throttle) && NeverExits(marks, name)
    ensures Since(marks, track, name) == if In(marks, track, name) then 1 else 0
  {
    if marks != [] {
      var n := |marks| - 1;
      var m := marks[n];
      assert m in marks;
      assert MayFollow(marks[..n], m, throttle);
      assert Legal(marks[..n], throttle) by {
        forall k | 0 <= k < n ensures MayFollow(marks[..n][..k], marks[..n][k], throttle) {
          assert marks[..n][..k] == marks[..k];
          assert MayFollow(marks[..k], marks[k], throttle);
        }
      }
      OneEntry(marks[..n], track, name, throttle);
    }
  }

  /** No zone called `name` is ever a polygon. */
  predicate NotPolygon(zones: seq<Zone>, name: string) {
    forall z :: z in zones && z.name == name ==> z.shape != Polygon
  }

  lemma {:induction false} VisitNeverExits(s: State, u: Sighting, zones: seq<Zone>, name: string)
    requires NotPolygon(zones, name)
    ensures NeverExits(Visit(s, u, zones).marks, name)
  {
    hide InZone;
    if zones != [] {
      VisitNeverExits(s, u, zones[..|zones| - 1], name);
      assert zones[|zones| - 1] in zones;
    }
  }

  lemma {:induction false} RunNeverExits(throttle: real, ops: seq<Op>, name: string)
    requires forall op :: op in ops && op.Load? ==> NotPolygon(op.zones, name)
    ensures var r := Run(throttle, ops); NotPolygon(r.0.zones, name) && NeverExits(r.1, name)
  {
    hide Visit;
    if ops != [] {
      var n := |ops| - 1;
      RunNeverExits(throttle, ops[..n], name);
      var before := Run(throttle, ops[..n]);
      assert ops[n] in ops;
      if ops[n].Update? {
        VisitNeverExits(before.0, ops[n].u, before.0.zones, name);
        VisitKeepsZones(before.0, ops[n].u, before.0.zones);
      }
    }
  }

  lemma {:induction false} VisitKeepsZones(s: State, u: Sighting, zones: seq<Zone>)
    ensures Visit(s, u, zones).state.zones == s.zones
  {
    hide InZone;
    if zones != [] {
      VisitKeepsZones(s, u, zones[..|zones| - 1]);
    }
  }

  /** A zone drawn as a line fires at most once for a person between clean-ups,
      however often the line is crossed: it has no exit, so the person stays in. */
  lemma LineFiresOnce(throttle: real, ops: seq<Op>, track: int, name: string)
    requires forall op :: op in ops && op.Load? ==> NotPolygon(op.zones, name)
    ensures Since(Run(throttle, ops).1, track, name) <= 1
  {
    RunNeverExits(throttle, ops, name);
    EventsAlternateAndKeepDistance(throttle, ops);
    OneEntry(Run(throttle, ops).1, track, name, throttle);
  }

  // ----- how far the state may lag behind the geometry

  ghost predicate DistinctNames(zones: seq<Zone>) {
    forall i, j :: 0 <= i < j < |zones| ==> zones[i].name != zones[j].name
  }

  /** What one zone name sees of a state. */
  predicate SameFor(s: State, r: State, track: int, name: string) {
    && Within(s, track, name) == Within(r, track, name)
    && (Within(s, track, name) ==> s.inside[track][name] == r.inside[track][name])
    && (forall kind :: LastOf(s, Key(track, name, kind)) == LastOf(r, Key(track, name, kind)))
    && s.throttle == r.throttle
  }

  lemma {:induction false} OtherNamesUntouched(s: State, u: Sighting, zones: seq<Zone>, name: string)
    requires forall z :: z in zones ==> z.name != name
    ensures SameFor(s, Visit(s, u, zones).state, u.track, name)
  {
    hide InZone;
    if zones != [] {
      OtherNamesUntouched(s, u, zones[..|zones| - 1], name);
      assert zones[|zones| - 1].name != name;
    }
  }

  /** Nothing but the sighted person's own record changes. */
  lemma {:induction false} OtherPeopleUntouched(s: State, u: Sighting, zones: seq<Zone>, track: int, name: string)
    requires track != u.track
    ensures SameFor(s, Visit(s, u, zones).state, track, name)
  {
    hide InZone;
    if zones != [] {
      OtherPeopleUntouched(s, u, zones[..|zones| - 1], track, name);
    }
  }

  /** The disagreement a throttle leaves: the zone calls for an event and the last
      one of that kind was less than `throttle` ago. */
  predicate Throttled(s: State, u: Sighting, z: Zone, here: bool) {
    var need := NeedOf(z, here, Within(s, u.track, z.name));
    need.Needs? && u.time - LastOf(s, Key(u.track, z.name, need.kind)) < s.throttle
  }

  lemma VisitZoneLag(s: State, u: Sighting, z: Zone, here: bool)
    requires u.track in s.inside
    ensures var r := VisitZone(s, u, z, here).state;
            NeedOf(z, here, Within(r, u.track, z.name)).Needs? <==> Throttled(s, u, z, here)
    ensures VisitZone(s, u, z, here).marks == [] ==> VisitZone(s, u, z, here).state == s
  {
  }

  lemma {:induction false} VisitFinished(s: State, u: Sighting, zones: seq<Zone>, n: nat)
    requires !Visit(s, u, zones).raised && n <= |zones|
    ensures !Visit(s, u, zones[..n]).raised
    ensures forall i :: 0 <= i < |zones| ==> InZone(zones[i], u).Inside?
  {
    hide InZone;
    if zones != [] {
      var m := |zones| - 1;
      VisitFinished(s, u, zones[..m], if n < m then n else m);
      assert forall i :: 0 <= i < m ==> zones[..m][i] == zones[i];
      if n <= m {
        assert zones[..m][..n] == zones[..n];
      } else {
        assert zones[..n] == zones;
      }
    } else {
      assert zones[..n] == zones;
    }
  }

  lemma ThrottledSame(s: State, r: State, u: Sighting, z: Zone, here: bool)
    requires SameFor(s, r, u.track, z.name)
    ensures Throttled(s, u, z, here) == Throttled(r, u, z, here)
  {
  }

  /** After an update that did not raise, with distinct zone names: a zone still
      calls for an event exactly when it called for one before and the last event of
      that kind was less than `throttle` ago. For a polygon, calling for an event is
      disagreeing with the geometry. */
  lemma {:induction false} LagExactlyWhen(s: State, u: Sighting, zones: seq<Zone>, i: nat)
    requires DistinctNames(zones) && i < |zones|
    requires !Visit(s, u, zones).raised
    ensures InZone(zones[i], u).Inside?
    ensures var here := InZone(zones[i], u).value;
            NeedOf(zones[i], here, Within(Visit(s, u, zones).state, u.track, zones[i].name)).Needs?
            <==> Throttled(s, u, zones[i], here)
  {
    hide InZone, VisitZone, Throttled;
    var m := |zones| - 1;
    VisitFinished(s, u, zones, m);
    var z := zones[i];
    var here := InZone(z, u).value;
    var o := Visit(s, u, zones[..m]);
    if i == m {
      OtherNamesUntouched(s, u, zones[..m], z.name);
      ThrottledSame(s, o.state, u, z, here);
      VisitZoneLag(o.state, u, z, here);
    } else {
      LagExactlyWhen(s, u, zones[..m], i);
      assert zones[..m][i] == z;
      var later := zones[m];
      OneOtherName(o.state, u, later, InZone(later, u).value, z.name);
    }
  }

  lemma OneOtherName(s: State, u: Sighting, z: Zone, here: bool, name: string)
    requires u.track in s.inside && z.name != name
    ensures SameFor(s, VisitZone(s, u, z, here).state, u.track, name)
  {
  }

  lemma PolygonDisagrees(z: Zone, here: bool, was: bool)
    requires z.shape == Polygon
    ensures NeedOf(z, here, was) == if here == was then Nothing else Needs(if here then Entry else Exit)
  {
  }

  /** No event with this key has happened. */
  predicate Never(marks: seq<Mark>, k: Key) {
    forall m :: m in marks ==> !(m.Event? && m.key == k)
  }

  lemma {:induction false} NeverIsTimeZero(marks: seq<Mark>, k: Key)
    requires Never(marks, k)
    ensures LastTime(marks, k) == 0.0
  {
    if marks != [] {
      assert marks[|marks| - 1] in marks;
      NeverIsTimeZero(marks[..|marks| - 1], k);
    }
  }

  /** Whether the throttle holds back an event at a time: the last one of its key
      was less than the throttle ago, or there was none and the clock itself is
      below the throttle. */
  predicate HeldBack(marks: seq<Mark>, k: Key, time: real, throttle: real) {
    if Never(marks, k) then time < throttle else time - LastTime(marks, k) < throttle
  }

  /** Over any run, in terms of its events: after an update that did not raise, with
      distinct names, a polygon's in/out state disagrees with the geometry exactly
      when it did before and the event that would set it right is held back. A zone
      of another shape only ever calls for an entry. */
  lemma StateLagsExactlyWhen(throttle: real, ops: seq<Op>, u: Sighting, i: nat)
    requires var (s, _) := Run(throttle, ops);
             DistinctNames(s.zones) && i < |s.zones| && !Visit(s, u, s.zones).raised
    ensures var (s, marks) := Run(throttle, ops);
            var z, after := s.zones[i], Run(throttle, ops + [Update(u)]).0;
            && InZone(z, u).Inside?
            && var here := InZone(z, u).value;
            && var need := NeedOf(z, here, In(marks, u.track, z.name));
            && (NeedOf(z, here, Within(after, u.track, z.name)).Needs?
                <==> need.Needs? && HeldBack(marks, Key(u.track, z.name, need.kind), u.time, throttle))
            && (z.shape == Polygon ==>
                  (Within(after, u.track, z.name) != here
                   <==> In(marks, u.track, z.name) != here
                        && HeldBack(marks, Key(u.track, z.name, if here then Entry else Exit), u.time, throttle)))
  {
    hide InZone, Visit, Legal, In, LastTime, Never;
    var (s, marks) := Run(throttle, ops);
    var z := s.zones[i];
    assert (ops + [Update(u)])[..|ops|] == ops;
    EventsAlternateAndKeepDistance(throttle, ops);
    LagExactlyWhen(s, u, s.zones, i);
    var here := InZone(z, u).value;
    var after := Visit(s, u, s.zones).state;
    forall kind ensures (u.time - LastOf(s, Key(u.track, z.name, kind)) < throttle)
                        == HeldBack(marks, Key(u.track, z.name, kind), u.time, throttle)
    {
      if Never(marks, Key(u.track, z.name, kind)) {
        NeverIsTimeZero(marks, Key(u.track, z.name, kind));
      }
    }
    if z.shape == Polygon {
      PolygonDisagrees(z, here, Within(s, u.track, z.name));
      PolygonDisagrees(z, here, Within(after, u.track, z.name));
    }
  }

  /** Two zones of one name defeat this: a person outside who is in the first and not
      in the second enters and leaves in one update, exactly when neither event is
      throttled. */
  lemma SharedNamesDisagree(s: State, a: Zone, b: Zone, u: Sighting)
    requires a.name == b.name && a.shape == Polygon && b.shape == Polygon
    requires InZone(a, u) == Inside(true) && InZone(b, u) == Inside(false)
    requires !Within(s, u.track, a.name)
    ensures var entry, exit := Key(u.track, a.name, Entry), Key(u.track, a.name, Exit);
            Visit(s, u, [a, b]).marks == [Event(entry, u.time), Event(exit, u.time)]
            <==> u.time - LastOf(s, entry) >= s.throttle && u.time - LastOf(s, exit) >= s.throttle
  {
    hide InZone;
    var entry, exit := Key(u.track, a.name, Entry), Key(u.track, a.name, Exit);
    var both := [a, b];
    assert both[..1] == [a] && [a][..0] == [];
    assert Visit(s, u, []) == Outcome(Present(s, u.track), [], false);
    var one := VisitZone(Present(s, u.track), u, a, true);
    var first := Visit(s, u, [a]);
    assert first == Outcome(one.state, [] + one.marks, false);
    var two := VisitZone(first.state, u, b, false);
    assert Visit(s, u, both).marks == first.marks + two.marks;
    SharedSteps(s, a, b, u, entry, exit);
  }

  lemma SharedSteps(s: State, a: Zone, b: Zone, u: Sighting, entry: Key, exit: Key)
    requires a.name == b.name && a.shape == Polygon && b.shape == Polygon
    requires entry == Key(u.track, a.name, Entry) && exit == Key(u.track, a.name, Exit)
    requires !Within(s, u.track, a.name)
    ensures var one := VisitZone(Present(s, u.track), u, a, true);
            var two := VisitZone(one.state, u, b, false);
            && one.marks == (if u.time - LastOf(s, entry) >= s.throttle then [Event(entry, u.time)] else [])
            && two.marks == (if one.marks != [] && u.time - LastOf(s, exit) >= s.throttle then [Event(exit, u.time)]
                             else [])
  {
  }

  // ----- throttle keys as the strings the code uses

  function Number(n: int): (r: string) {
    if n < 0 then "-" + Strtoul.Decimal(-n) else Strtoul.Decimal(n)
  }

  function KindText(kind: Kind): (r: string) {
    match kind
    case Entry => "entry"
    case Exit => "exit"
  }

  /** f"{track_id}:{zone.name}:{kind}" */
  function KeyText(k: Key): (r: string) {
    Number(k.track) + [':'] + (k.name + [':'] + KindText(k.kind))
  }

  lemma NumberText(n: int)
    ensures ':' !in Number(n)
  {
    Strtoul.DecimalDigits(if n < 0 then -n else n);
  }

  lemma NumberUnique(m: int, n: int)
    requires Number(m) == Number(n)
    ensures m == n
  {
    Strtoul.DecimalDigits(if m < 0 then -m else m);
    Strtoul.DecimalDigits(if n < 0 then -n else n);
    if m < 0 && n < 0 {
      assert Number(m)[1..] == Strtoul.Decimal(-m);
      assert Number(n)[1..] == Strtoul.Decimal(-n);
    } else {
      assert Number(m)[0] == Number(n)[0];
    }
  }

  lemma FirstColon(a: string, b: string, x: string, y: string)
    requires ':' !in a && ':' !in b
    requires a + [':'] + x == b + [':'] + y
    ensures a == b && x == y
  {
    var s, t := a + [':'] + x, b + [':'] + y;
    assert s[|a|] == ':' && t[|b|] == ':';
    assert forall k :: 0 <= k < |b| ==> t[k] == b[k] && b[k] in b;
    assert forall k :: 0 <= k < |a| ==> s[k] == a[k] && a[k] in a;
    assert a == s[..|a|] && b == t[..|b|];
    assert x == s[|a| + 1..] && y == t[|b| + 1..];
  }

  /** Different people, zones or kinds never share a key, whatever characters the
      zone names hold. */
  lemma KeysNeverClash(j: Key, k: Key)
    requires KeyText(j) == KeyText(k)
    ensures j == k
  {
    hide Number;
    NumberText(j.track);
    NumberText(k.track);
    var x, y := j.name + [':'] + KindText(j.kind), k.name + [':'] + KindText(k.kind);
    FirstColon(Number(j.track), Number(k.track), x, y);
    NumberUnique(j.track, k.track);
    assert x[|x| - 1] == y[|y| - 1] && x[|x| - 2] == y[|y| - 2];
    assert j.name == x[..|j.name|] && k.name == y[..|k.name|];
  }

  // ----- the object

  class ThrottledZoneManager {
    var zones: seq<Zone>
    var throttle: real
    var inside: map<int, Presence>
    var last: map<Key, real>

    ghost function Value(): (s: State)
      reads this
    {
      State(zones, throttle, inside, last)
    }

    constructor (seconds: real)
      ensures Value() == Initial(seconds)
    {
      zones, throttle, inside, last := [], seconds, map[], map[];
    }

    /** A configuration: unreadable ones change nothing, zones of fewer than two
        points are skipped, and an entry that cannot be read ends the loading with
        the zones before it. */
    method LoadConfig(config: Option<seq<Drawn>>)
      modifies this`zones
      ensures zones == if config.None? then old(zones) else Loadable(config.value)
    {
      if config.None? {
        return;
      }
      var drawn := config.value;
      zones := [];
      for i := 0 to |drawn|
        invariant zones + Loadable(drawn[i..]) == Loadable(drawn)
      {
        assert drawn[i..][1..] == drawn[i + 1..];
        match drawn[i]
        case Broken => return;
        case Readable(z) =>
          if |z.points| >= 2 {
            zones := zones + [z];
          }
      }
    }

    method CleanupTrack(track: int)
      modifies this`inside
      ensures Value() == Apply(old(Value()), Cleanup(track)).state
    {
      inside := inside - {track};
    }

    /** Enter or leave one zone, if the throttle allows it. */
    method TryFire(k: Key, time: real) returns (fired: bool)
      requires k.track in inside && (k.kind == Exit ==> k.name in inside[k.track])
      modifies this`inside, this`last
      ensures fired <==> time - LastOf(old(Value()), k) >= throttle
      ensures Value() == if fired then Fire(old(Value()), k, time) else old(Value())
    {
      var before := if k in last then last[k] else 0.0;
      fired := time - before >= throttle;
      if fired {
        if k.kind == Entry {
          inside := inside[k.track := inside[k.track][k.name := time]];
        } else {
          inside := inside[k.track := inside[k.track] - {k.name}];
        }
        last := last[k := time];
      }
    }

    method VisitOne(u: Sighting, z: Zone, here: bool) returns (events: seq<Mark>)
      requires u.track in inside
      modifies this`inside, this`last
      ensures var r := VisitZone(old(Value()), u, z, here); Value() == r.state && events == r.marks
    {
      events := [];
      var was := z.name in inside[u.track];
      if here && !was {
        var fired := TryFire(Key(u.track, z.name, Entry), u.time);
        if fired {
          events := [Event(Key(u.track, z.name, Entry), u.time)];
        }
      } else if !here && was && z.shape == Polygon {
        var fired := TryFire(Key(u.track, z.name, Exit), u.time);
        if fired {
          events := [Event(Key(u.track, z.name, Exit), u.time)];
        }
      }
    }

    method Geometry(z: Zone, u: Sighting) returns (r: Answer)
      ensures r == InZone(z, u)
    {
      if z.shape == Polygon && |z.points| >= 3 {
        r := ContainsPoint(z.points, u.p, PIPELINE_EPSILON);
      } else if z.shape == Line && u.prev.Some? {
        r := Inside(Segments.CrossedLine(u.prev.value, u.p, z.points));
      } else {
        r := Inside(false);
      }
    }

    method UpdateTrack(u: Sighting) returns (events: seq<Mark>, raised: bool)
      modifies this`inside, this`last
      ensures var r := Apply(old(Value()), Update(u));
              Value() == r.state && raised == r.raised && (!raised ==> events == r.marks)
    {
      hide InZone, VisitZone;
      events := [];
      if u.track !in inside {
        inside := inside[u.track := map[]];
      }
      for i := 0 to |zones|
        invariant u.track in inside
        invariant Visit(old(Value()), u, zones[..i]) == Outcome(Value(), events, false)
      {
        assert zones[..i + 1][..i] == zones[..i];
        var a := Geometry(zones[i], u);
        if a.ZeroDivision? {
          VisitStopped(old(Value()), u, zones, i + 1);
          return [], true;
        }
        var more := VisitOne(u, zones[i], a.value);
        events := events + more;
      }
      assert zones[..|zones|] == zones;
      return events, false;
    }
  }

  /** An entry of the configuration. */
  datatype Drawn = Readable(zone: Zone) | Broken

  function Loadable(drawn: seq<Drawn>): (r: seq<Zone>) {
    if drawn == [] || drawn[0].Broken? then []
    else (if |drawn[0].zone.points| >= 2 then [drawn[0].zone] else []) + Loadable(drawn[1..])
  }

  /** Of entries that can all be read, the zones loaded are those with at least two
      points, in order; an entry that cannot be read hides all behind it. */
  lemma {:induction false} LoadedExactly(drawn: seq<Drawn>, more: seq<Drawn>)
    requires forall d :: d in drawn ==> d.Readable?
    ensures var zones := seq(|drawn|, k requires 0 <= k < |drawn| => drawn[k].zone);
            PartWhere(Loadable(drawn), zones, set i: nat | i < |zones| && |zones[i].points| >= 2)
    ensures Loadable(drawn + [Broken] + more) == Loadable(drawn)
  {
    hide PartWhere;
    var zones := seq(|drawn|, k requires 0 <= k < |drawn| => drawn[k].zone);
    var all := set i: nat | i < |zones| && |zones[i].points| >= 2;
    var whole := drawn + [Broken] + more;
    if drawn == [] {
      NothingWhere<Zone>(all);
      assert whole[0] == Broken;
      assert zones == [];
    } else {
      var rest := drawn[1..];
      LoadedExactly(rest, more);
      assert whole[0] == drawn[0] && whole[1..] == rest + [Broken] + more;
      assert drawn[0] in drawn;
      var tail := seq(|rest|, k requires 0 <= k < |rest| => rest[k].zone);
      assert tail == zones[1..];
      var wanted := set i: nat | i < |tail| && |tail[i].points| >= 2;
      PartWhereCons(Loadable(rest), zones, wanted, all);
    }
  }

  /** Once a zone has raised, the rest of the list is not looked at. */
  lemma {:induction false} VisitStopped(s: State, u: Sighting, zones: seq<Zone>, n: nat)
    requires n <= |zones| && Visit(s, u, zones[..n]).raised
    ensures Visit(s, u, zones) == Visit(s, u, zones[..n])
    decreases |zones|
  {
    hide VisitZone, InZone;
    if n == |zones| {
      assert zones[..n] == zones;
    } else {
      var m := |zones| - 1;
      assert zones[..m][..n] == zones[..n];
      VisitStopped(s, u, zones[..m], n);
    }
  }
}
