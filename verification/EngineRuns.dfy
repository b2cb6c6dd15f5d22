/** Whole runs of the `TransactionEngine`: any number of cameras and tracks. */
module EngineRuns {
  import opened Options
  import opened Transactions

  /** Camera and track id. */
  type Key = (string, int)

  datatype ZoneEvent = ZoneEvent(trackId: int, zone: Zone, kind: Crossing, ts: real)

  /** enteredAt is what a session created in this operation takes for its
      entry; now is the clock, timestamp the time of the frame. */
  datatype Op =
    | ProcessFrame(camera: string, timestamp: real, tracks: seq<Option<int>>, events: seq<ZoneEvent>, now: real,
        enteredAt: real)
    | TrackEnd(camera: string, trackId: int)

  predicate IsTrack(track: Option<int>) {
    track.Some? && track.value >= 0
  }

  /** The detection loop: a session for every track, last seen now. */
  function SeeAll(sessions: map<Key, Session>, camera: string, tracks: seq<Option<int>>, timestamp: real,
                  enteredAt: real)
    : map<Key, Session>
  {
    if tracks == [] then sessions
    else
      var before := SeeAll(sessions, camera, tracks[..|tracks| - 1], timestamp, enteredAt);
      var track := tracks[|tracks| - 1];
      if !IsTrack(track) then before
      else
        var key := (camera, track.value);
        var s := if key in before then before[key] else NewSession(enteredAt, timestamp);
        before[key := s.(lastSeen := timestamp)]
  }

  function Ids(tracks: seq<Option<int>>): set<int> {
    set k | 0 <= k < |tracks| && IsTrack(tracks[k]) :: tracks[k].value
  }

  /** The crossing loop; the keys an update is sent for, in order. */
  function CrossAll(sessions: map<Key, Session>, camera: string, events: seq<ZoneEvent>, now: real):
      (map<Key, Session>, seq<Key>) {
    if events == [] then (sessions, [])
    else
      var (before, updates) := CrossAll(sessions, camera, events[..|events| - 1], now);
      var e := events[|events| - 1];
      var key := (camera, e.trackId);
      if key !in before then (before, updates)
      else
        var (s, changed, predictions) := Cross(before[key], e.zone, e.kind, e.ts, now);
        (before[key := s], updates + if changed then [key] else [])
  }

  /** The sessions of a camera not seen in this frame or for the last 15 s. */
  function Stale(sessions: map<Key, Session>, camera: string, ids: set<int>, timestamp: real): set<Key> {
    set k | k in sessions && k.0 == camera && k.1 !in ids && timestamp - sessions[k].lastSeen > 15.0
  }

  /** The sessions after an operation, and those it ended. */
  function Apply(sessions: map<Key, Session>, op: Op): (map<Key, Session>, map<Key, Session>) {
    match op
    case ProcessFrame(camera, timestamp, tracks, events, now, enteredAt) =>
      var seen := SeeAll(sessions, camera, tracks, timestamp, enteredAt);
      var crossed := CrossAll(seen, camera, events, now).0;
      var stale := Stale(crossed, camera, Ids(tracks), timestamp);
      (crossed - stale, map k | k in stale :: crossed[k].(state := EXITED_STORE))
    case TrackEnd(camera, trackId) =>
      var key := (camera, trackId);
      (sessions - {key}, if key in sessions then map[key := sessions[key].(state := EXITED_STORE)] else map[])
  }

  function Run(ops: seq<Op>): map<Key, Session> {
    if ops == [] then map[] else Apply(Run(ops[..|ops| - 1]), ops[|ops| - 1]).0
  }

  // ----- the predictions persisted along a run

  datatype Entry = Begun(key: Key) | Predicted(key: Key, level: Level)

  function Marked(key: Key, levels: seq<Level>): seq<Entry> {
    if levels == [] then [] else Marked(key, levels[..|levels| - 1]) + [Predicted(key, levels[|levels| - 1])]
  }

  /** The sessions the detection loop begins. */
  function SeeLog(sessions: map<Key, Session>, camera: string, tracks: seq<Option<int>>, timestamp: real,
                  enteredAt: real): seq<Entry>
  {
    if tracks == [] then []
    else
      var before := SeeAll(sessions, camera, tracks[..|tracks| - 1], timestamp, enteredAt);
      var track := tracks[|tracks| - 1];
      SeeLog(sessions, camera, tracks[..|tracks| - 1], timestamp, enteredAt)
      + if IsTrack(track) && (camera, track.value) !in before then [Begun((camera, track.value))] else []
  }

  /** The predictions the crossing loop persists. */
  function CrossLog(sessions: map<Key, Session>, camera: string, events: seq<ZoneEvent>, now: real): seq<Entry> {
    if events == [] then []
    else
      var before := CrossAll(sessions, camera, events[..|events| - 1], now).0;
      var e := events[|events| - 1];
      var key := (camera, e.trackId);
      CrossLog(sessions, camera, events[..|events| - 1], now)
      + if key in before then Marked(key, Cross(before[key], e.zone, e.kind, e.ts, now).2) else []
  }

  function LogOf(sessions: map<Key, Session>, op: Op): seq<Entry> {
    match op
    case ProcessFrame(camera, timestamp, tracks, events, now, enteredAt) =>
      SeeLog(sessions, camera, tracks, timestamp, enteredAt)
      + CrossLog(SeeAll(sessions, camera, tracks, timestamp, enteredAt), camera, events, now)
    case TrackEnd(_, _) => []
  }

  function Log(ops: seq<Op>): seq<Entry> {
    if ops == [] then [] else Log(ops[..|ops| - 1]) + LogOf(Run(ops[..|ops| - 1]), ops[|ops| - 1])
  }

  /** The levels persisted for a key since its session began. */
  function Since(log: seq<Entry>, key: Key): seq<Level> {
    if log == [] then []
    else
      match log[|log| - 1]
      case Begun(k) => if k == key then [] else Since(log[..|log| - 1], key)
      case Predicted(k, level) => Since(log[..|log| - 1], key) + if k == key then [level] else []
  }

  lemma SinceSnoc(log: seq<Entry>, e: Entry, key: Key)
    ensures Since(log + [e], key) ==
            match e
            case Begun(k) => if k == key then [] else Since(log, key)
            case Predicted(k, level) => Since(log, key) + if k == key then [level] else []
  {
    assert (log + [e])[..|log|] == log;
  }

  lemma {:induction false} SinceMarked(log: seq<Entry>, at: Key, levels: seq<Level>, key: Key)
    ensures Since(log + Marked(at, levels), key) == Since(log, key) + if at == key then levels else []
  {
    hide Since;
    if levels == [] {
      assert log + Marked(at, levels) == log;
      assert Since(log, key) + [] == Since(log, key);
    } else {
      var n := |levels| - 1;
      var before := log + Marked(at, levels[..n]);
      SinceMarked(log, at, levels[..n], key);
      assert log + Marked(at, levels) == before + [Predicted(at, levels[n])];
      SinceSnoc(before, Predicted(at, levels[n]), key);
      if at == key {
        assert Since(log, key) + levels[..n] + [levels[n]] == Since(log, key) + levels;
      } else {
        assert Since(log, key) + [] + [] == Since(log, key) + [];
      }
    }
  }

  /** What is persisted for a session rises, up to its last level. */
  ghost predicate Rising(sessions: map<Key, Session>, log: seq<Entry>) {
    forall k :: k in sessions ==> Rises(UNLIKELY, Since(log, k), sessions[k].lastPersisted)
  }

  // ----- what every run keeps

  /** The clock of an operation is past 30. */
  predicate Timely(op: Op) {
    op.ProcessFrame? && op.now >= 30.0
  }

  ghost predicate AllLive(sessions: map<Key, Session>) {
    forall k :: k in sessions ==> Live(sessions[k])
  }

  ghost predicate AllEarly(sessions: map<Key, Session>) {
    forall k :: k in sessions ==> Early(sessions[k])
  }

  /** Sessions that were there before only went forward. */
  ghost predicate AllForward(a: map<Key, Session>, b: map<Key, Session>) {
    forall k :: k in a && k in b ==> Forward(a[k], b[k])
  }

  lemma NewLive(enteredAt: real, lastSeen: real)
    ensures var s := NewSession(enteredAt, lastSeen); Live(s) && Early(s) && Rises(UNLIKELY, [], s.lastPersisted)
  {}

  lemma {:induction false} SeeAllLive(
    sessions: map<Key, Session>, camera: string, tracks: seq<Option<int>>, timestamp: real, enteredAt: real,
        log: seq<Entry>)
    requires AllLive(sessions) && Rising(sessions, log)
    ensures var seen := SeeAll(sessions, camera, tracks, timestamp, enteredAt);
            && AllLive(seen) && AllForward(sessions, seen) && sessions.Keys <= seen.Keys
            && (AllEarly(sessions) ==> AllEarly(seen))
            && Rising(seen, log + SeeLog(sessions, camera, tracks, timestamp, enteredAt))
  {
    hide AllLive, AllEarly, AllForward, Rising;
    if tracks == [] {
      assert log + [] == log;
      ForwardItself(sessions);
    } else {
      var n := |tracks| - 1;
      SeeAllLive(sessions, camera, tracks[..n], timestamp, enteredAt, log);
      var before := SeeAll(sessions, camera, tracks[..n], timestamp, enteredAt);
      SeeOneLive(before, camera, tracks[n], timestamp, enteredAt,
                 log + SeeLog(sessions, camera, tracks[..n], timestamp, enteredAt));
      ForwardOn(sessions, before, SeeAll(sessions, camera, tracks, timestamp, enteredAt));
      assert log + SeeLog(sessions, camera, tracks, timestamp, enteredAt)
          == log + SeeLog(sessions, camera, tracks[..n], timestamp, enteredAt)
              + SeeLog(before, camera, [tracks[n]], timestamp, enteredAt);
    }
  }

  lemma ForwardItself(a: map<Key, Session>)
    ensures AllForward(a, a)
  {}

  lemma ForwardOn(a: map<Key, Session>, b: map<Key, Session>, c: map<Key, Session>)
    requires AllForward(a, b) && AllForward(b, c) && a.Keys <= b.Keys
    ensures AllForward(a, c)
  {
    hide Rank, LevelRank;
    forall k | k in a && k in c ensures Forward(a[k], c[k]) {
      assert k in b;
    }
  }

  lemma SeeOneLive(before: map<Key, Session>, camera: string, track: Option<int>, timestamp: real, enteredAt: real,
                   log: seq<Entry>)
    requires AllLive(before) && Rising(before, log)
    ensures var key := (camera, if IsTrack(track) then track.value else 0);
            var s := if key in before then before[key] else NewSession(enteredAt, timestamp);
            var seen := if IsTrack(track) then before[key := s.(lastSeen := timestamp)] else before;
            var more := if IsTrack(track) && key !in before then [Begun(key)] else [];
            && AllLive(seen) && (AllEarly(before) ==> AllEarly(seen)) && Rising(seen, log + more)
            && AllForward(before, seen)
            && SeeLog(before, camera, [track], timestamp, enteredAt) == more
  {
    hide Live, Early, Rises, Since;
    assert [track][..0] == [];
    assert SeeAll(before, camera, [], timestamp, enteredAt) == before;
    if IsTrack(track) {
      var key := (camera, track.value);
      var s := if key in before then before[key] else NewSession(enteredAt, timestamp);
      NewLive(enteredAt, timestamp);
      SeenLive(s, timestamp);
      if key !in before {
        forall k ensures Since(log + [Begun(key)], k) == if k == key then [] else Since(log, k) {
          SinceSnoc(log, Begun(key), k);
        }
      }
    }
    assert log + [] == log;
  }

  lemma SeenLive(s: Session, timestamp: real)
    requires Live(s)
    ensures var t := s.(lastSeen := timestamp); Live(t) && Forward(s, t) && (Early(s) ==> Early(t))
  {}

  lemma {:induction false} CrossAllLive(sessions: map<Key, Session>, camera: string, events: seq<ZoneEvent>,
                                        now: real, log: seq<Entry>)
    requires AllLive(sessions) && (now >= 30.0 || AllEarly(sessions)) && Rising(sessions, log)
    ensures var crossed := CrossAll(sessions, camera, events, now).0;
            && AllLive(crossed) && AllForward(sessions, crossed) && sessions.Keys == crossed.Keys
            && (now < 30.0 ==> AllEarly(crossed))
            && Rising(crossed, log + CrossLog(sessions, camera, events, now))
  {
    hide Live, Early, Cross, Rises, Since;
    if events == [] {
      assert log + [] == log;
    } else {
      var n := |events| - 1;
      CrossAllLive(sessions, camera, events[..n], now, log);
      var before := CrossAll(sessions, camera, events[..n], now).0;
      var soFar := log + CrossLog(sessions, camera, events[..n], now);
      var e := events[n];
      var key := (camera, e.trackId);
      if key in before {
        CrossLive(before[key], e.zone, e.kind, e.ts, now);
        var levels := Cross(before[key], e.zone, e.kind, e.ts, now).2;
        assert log + CrossLog(sessions, camera, events, now) == soFar + Marked(key, levels);
        CrossRising(before, soFar, key, Cross(before[key], e.zone, e.kind, e.ts, now).0, levels);
      } else {
        assert log + CrossLog(sessions, camera, events, now) == soFar;
      }
    }
  }

  lemma CrossRising(before: map<Key, Session>, log: seq<Entry>, key: Key, s: Session, levels: seq<Level>)
    requires Rising(before, log) && key in before
    requires Rises(before[key].lastPersisted, levels, s.lastPersisted)
    ensures Rising(before[key := s], log + Marked(key, levels))
  {
    hide Rises, Since, Marked;
    var after := before[key := s];
    forall k | k in after ensures Rises(UNLIKELY, Since(log + Marked(key, levels), k), after[k].lastPersisted) {
      SinceMarked(log, key, levels, k);
      if k == key {
        RisesMore(UNLIKELY, Since(log, key), before[key].lastPersisted, levels, s.lastPersisted);
      } else {
        assert Since(log, k) + [] == Since(log, k);
      }
    }
  }

  /** Every operation keeps every live session's invariant and takes sessions
      only forward, when its clock is past 30 or no session has got anywhere; a
      session it ends still has the score its signals earned. */
  lemma ApplyLive(sessions: map<Key, Session>, op: Op, log: seq<Entry>)
    requires AllLive(sessions) && (Timely(op) || AllEarly(sessions) || op.TrackEnd?) && Rising(sessions, log)
    ensures var (after, ended) := Apply(sessions, op);
            && AllLive(after) && AllForward(sessions, after) && Rising(after, log + LogOf(sessions, op))
            && (!Timely(op) && AllEarly(sessions) ==> AllEarly(after))
            && forall k :: k in ended ==> ended[k].state == EXITED_STORE && Scored(ended[k])
  {
    hide Confidence, Sum, LevelRank, Rank, SeeAll, CrossAll, SeeLog, CrossLog, Early, Rises, Since;
    if op.ProcessFrame? {
      var seen := SeeAll(sessions, op.camera, op.tracks, op.timestamp, op.enteredAt);
      var soFar := log + SeeLog(sessions, op.camera, op.tracks, op.timestamp, op.enteredAt);
      SeeAllLive(sessions, op.camera, op.tracks, op.timestamp, op.enteredAt, log);
      CrossAllLive(seen, op.camera, op.events, op.now, soFar);
      assert log + LogOf(sessions, op) == soFar + CrossLog(seen, op.camera, op.events, op.now);
    } else {
      assert log + [] == log;
    }
  }

  /** A clock that does not read below 30 once it has reached it. */
  ghost predicate Steady(ops: seq<Op>) {
    forall j, k :: 0 <= j < k < |ops| && Timely(ops[j]) && ops[k].ProcessFrame? ==> Timely(ops[k])
  }

  /** The invariant of every reachable session, over every run on a steady
      clock, from wherever it starts: the state of a live session bounds its
      signals, its score is the saturated sum of them, and at most three
      predictions have been persisted since it began, at strictly rising levels. */
  lemma {:induction false} RunIsLive(ops: seq<Op>)
    requires Steady(ops)
    ensures AllLive(Run(ops)) && Rising(Run(ops), Log(ops))
    ensures (forall k :: 0 <= k < |ops| ==> !Timely(ops[k])) ==> AllEarly(Run(ops))
    ensures forall k :: k in Run(ops) && Rank(Run(ops)[k].state) >= 5 ==>
              Run(ops)[k].score >= 80 && (Run(ops)[k].level == MEDIUM || Run(ops)[k].level == HIGH)
  {
    hide Live, Rank, Early, Rises, Since, Apply, LogOf;
    if ops != [] {
      var n := |ops| - 1;
      assert forall k :: 0 <= k < n ==> ops[..n][k] == ops[k];
      RunIsLive(ops[..n]);
      ApplyLive(Run(ops[..n]), ops[n], Log(ops[..n]));
    }
    forall k | k in Run(ops) && Rank(Run(ops)[k].state) >= 5
      ensures Run(ops)[k].score >= 80 && (Run(ops)[k].level == MEDIUM || Run(ops)[k].level == HIGH)
    {
      PayingIsLikely(Run(ops)[k]);
    }
  }

  /** The predictions of one session of the engine. */
  lemma PredictionsRise(ops: seq<Op>, key: Key)
    requires Steady(ops) && key in Run(ops)
    ensures var levels := Since(Log(ops), key);
            |levels| <= 3 && forall j, k :: 0 <= j < k < |levels| ==> LevelRank(levels[j]) < LevelRank(levels[k])
  {
    hide Rises;
    RunIsLive(ops);
    RisesBound(UNLIKELY, Since(Log(ops), key), Run(ops)[key].lastPersisted);
  }
}
