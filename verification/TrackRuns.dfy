/** Whole runs of the `TrackingService`: any number of cameras sharing one
    visitor-id generator, with frames, resets and removals in any order. */
module TrackRuns {
  import opened Tracking
  import opened TrackLife
  import opened TrackFrames

  const START := 101

  datatype Tracker = Tracker(tracks: seq<Track>, nextTid: int)

  /** counter is the last visitor id issued. */
  datatype Service = Service(trackers: map<string, Tracker>, counter: int)

  datatype Op =
    | Process(camera: string, frame: Frame)
    | ResetCamera(camera: string)
    | RemoveCamera(camera: string)

  const INITIAL := Service(map[], START - 1)

  function Persons(detections: seq<Detection>): seq<Detection> {
    if detections == [] then []
    else
      var last := detections[|detections| - 1];
      Persons(detections[..|detections| - 1]) + if last.classId == 0 then [last] else []
  }

  function Of(s: Service, camera: string): Tracker {
    if camera in s.trackers then s.trackers[camera] else Tracker([], 1)
  }

  /** What the tracker of a camera is called with. */
  function PersonFrame(f: Frame): Frame {
    f.(detections := Persons(f.detections))
  }

  /** The solver's answers of a frame fit the tracks it meets. */
  ghost predicate Enabled(s: Service, op: Op, p: Params) {
    op.Process? ==> Answers(Of(s, op.camera).tracks, p, PersonFrame(op.frame))
  }

  function Apply(s: Service, op: Op, p: Params): (Service, seq<Event>)
    requires Enabled(s, op, p)
  {
    match op
    case Process(camera, frame) =>
      var t, f := Of(s, camera), PersonFrame(frame);
      var n := |Unmatched(t.tracks, p, f)|;
      var after := After(t.tracks, t.nextTid, s.counter + 1, p, f);
      (Service(s.trackers[camera := Tracker(after, t.nextTid + n)], s.counter + n),
       Events(t.tracks, t.nextTid, s.counter + 1, p, f, camera))
    case ResetCamera(camera) =>
      (if camera in s.trackers then s.(trackers := s.trackers[camera := s.trackers[camera].(tracks := [])]) else s, [])
    case RemoveCamera(camera) => (s.(trackers := s.trackers - {camera}), [])
  }

  /** The state and all the events after a run. */
  function Run(ops: seq<Op>, p: Params): (Service, seq<Event>)
    requires Possible(ops, p)
    decreases |ops|, 1
  {
    if ops == [] then (INITIAL, [])
    else
      var (s, log) := Run(ops[..|ops| - 1], p);
      var (s', events) := Apply(s, ops[|ops| - 1], p);
      (s', log + events)
  }

  ghost predicate Possible(ops: seq<Op>, p: Params)
    decreases |ops|, 0
  {
    ops == [] || (
      && Possible(ops[..|ops| - 1], p)
      && Enabled(Run(ops[..|ops| - 1], p).0, ops[|ops| - 1], p))
  }

  // ----- the invariant of the service

  ghost predicate Structured(s: Service, p: Params) {
    && s.counter >= START - 1
    && forall c :: c in s.trackers ==>
         && Invariant(s.trackers[c].tracks, s.trackers[c].nextTid, s.counter + 1, p)
         && forall k :: 0 <= k < |s.trackers[c].tracks| ==> s.trackers[c].tracks[k].visitorId >= START
  }

  /** No visitor id is in use on two cameras. */
  ghost predicate Apart(s: Service) {
    forall c, d, j, k ::
      c in s.trackers && d in s.trackers && c != d
      && 0 <= j < |s.trackers[c].tracks| && 0 <= k < |s.trackers[d].tracks| ==>
        s.trackers[c].tracks[j].visitorId != s.trackers[d].tracks[k].visitorId
  }

  ghost predicate Histories(tracks: seq<Track>, log: seq<Event>) {
    forall k :: 0 <= k < |tracks| ==> History(tracks[k], Kinds(log, tracks[k].visitorId))
  }

  /** Every visitor's events form a legal word; ids not issued have none. */
  ghost predicate Words(s: Service, log: seq<Event>) {
    forall v :: Legal(Kinds(log, v)) && (START <= v <= s.counter || Kinds(log, v) == [])
  }

  ghost predicate Inv(s: Service, log: seq<Event>, p: Params) {
    && Structured(s, p) && Apart(s) && Words(s, log)
    && forall c :: c in s.trackers ==> Histories(s.trackers[c].tracks, log)
  }

  /** Where a track of the next list comes from: its predecessor, or this frame. */
  lemma Origin(tracks: seq<Track>, tid: int, vid: int, p: Params, f: Frame, t: Track) returns (k: nat)
    requires Invariant(tracks, tid, vid, p) && Answers(tracks, p, f)
    requires t in After(tracks, tid, vid, p, f)
    ensures !Expires(t, p)
    ensures k < |tracks| ==>
              var o := tracks[k];
              && t.visitorId == o.visitorId && t.trackId == o.trackId
              && t == Step(o, HighOf(tracks, p, f, o.trackId), LowOf(tracks, p, f, o.trackId), p, f.timestamp)
    ensures k >= |tracks| ==>
              && vid <= t.visitorId < vid + |Unmatched(tracks, p, f)|
              && t.visitorId - vid == t.trackId - tid
              && t.state == if p.minHits <= 1 then TRACKED else NEW
  {
    hide HighOf, LowOf, Unmatched, Before, Prune, High;
    FrameKeepsInvariant(tracks, tid, vid, p, f);
    AllSteps(tracks, tid, vid, p, f);
    var all := PromoteAll(Before(tracks, tid, vid, p, f), p);
    var i :| 0 <= i < |all| && all[i] == t;
    TrackIn(tracks, tid, vid, p, f, i);
    k := i;
  }

  /** One frame of one camera keeps the histories of its tracks. */
  lemma FrameKeepsHistories(tracks: seq<Track>, tid: int, vid: int, p: Params, f: Frame, camera: string,
                            log: seq<Event>)
    requires Invariant(tracks, tid, vid, p) && Answers(tracks, p, f) && Histories(tracks, log)
    requires forall v :: v >= vid ==> Kinds(log, v) == []
    ensures Histories(After(tracks, tid, vid, p, f), log + Events(tracks, tid, vid, p, f, camera))
  {
    hide HighOf, LowOf, Unmatched, After, Events, Kinds, Word;
    var after, events := After(tracks, tid, vid, p, f), Events(tracks, tid, vid, p, f, camera);
    forall i | 0 <= i < |after| ensures History(after[i], Kinds(log + events, after[i].visitorId)) {
      var t := after[i];
      var k := Origin(tracks, tid, vid, p, f, t);
      KindsSplit(log, events, t.visitorId);
      if k < |tracks| {
        var o := tracks[k];
        EventsOfTrack(tracks, tid, vid, p, f, camera, k);
        WordExtends(o, Kinds(log, o.visitorId), HighOf(tracks, p, f, o.trackId), LowOf(tracks, p, f, o.trackId), p,
            f.timestamp);
      } else {
        EventsOfOther(tracks, tid, vid, p, f, camera, t.visitorId);
      }
    }
  }

  lemma FrameKeepsWords(tracks: seq<Track>, tid: int, vid: int, p: Params, f: Frame, camera: string, log: seq<Event>,
                        v: int)
    requires Invariant(tracks, tid, vid, p) && Answers(tracks, p, f) && Histories(tracks, log)
    requires Legal(Kinds(log, v)) && (v >= vid ==> Kinds(log, v) == [])
    ensures var events := Events(tracks, tid, vid, p, f, camera);
            && Legal(Kinds(log + events, v))
            && (Kinds(events, v) != [] ==>
                  vid <= v < vid + |Unmatched(tracks, p, f)|
                  || exists k :: 0 <= k < |tracks| && tracks[k].visitorId == v)
  {
    hide HighOf, LowOf, Unmatched, Events, Kinds, Word;
    var events := Events(tracks, tid, vid, p, f, camera);
    KindsSplit(log, events, v);
    var k := Find(tracks, v);
    if k < |tracks| {
      var o := tracks[k];
      EventsOfTrack(tracks, tid, vid, p, f, camera, k);
      WordExtends(o, Kinds(log, v), HighOf(tracks, p, f, o.trackId), LowOf(tracks, p, f, o.trackId), p, f.timestamp);
    } else {
      EventsOfOther(tracks, tid, vid, p, f, camera, v);
      assert Kinds(log, v) + [] == Kinds(log, v);
    }
  }

  lemma OfIsStructured(s: Service, camera: string, p: Params)
    requires Structured(s, p)
    ensures var t := Of(s, camera);
            && Invariant(t.tracks, t.nextTid, s.counter + 1, p)
            && (forall k :: 0 <= k < |t.tracks| ==> t.tracks[k].visitorId >= START)
  {}

  ghost predicate Uses(tracks: seq<Track>, v: int) {
    exists k :: 0 <= k < |tracks| && tracks[k].visitorId == v
  }

  /** The visitors of the next list are old ones, or have ids just issued. */
  lemma VisitorsFrom(tracks: seq<Track>, tid: int, vid: int, p: Params, f: Frame, v: int)
    requires Invariant(tracks, tid, vid, p) && Answers(tracks, p, f)
    requires Uses(After(tracks, tid, vid, p, f), v)
    ensures Uses(tracks, v) || vid <= v
  {
    hide HighOf, LowOf, Unmatched, After, Step, Good;
    var after := After(tracks, tid, vid, p, f);
    var k :| 0 <= k < |after| && after[k].visitorId == v;
    var j := Origin(tracks, tid, vid, p, f, after[k]);
    assert j < |tracks| ==> tracks[j].visitorId == v;
  }

  lemma IssuedGrows(tracks: seq<Track>, tid: int, vid: int, more: nat, p: Params)
    requires Invariant(tracks, tid, vid, p)
    ensures Invariant(tracks, tid, vid + more, p)
    ensures forall v :: Uses(tracks, v) ==> v < vid
  {}

  lemma FrameKeepsStructured(s: Service, camera: string, frame: Frame, p: Params)
    requires Structured(s, p) && Enabled(s, Process(camera, frame), p)
    ensures Structured(Apply(s, Process(camera, frame), p).0, p)
  {
    hide Unmatched, After, Events, Invariant;
    var o, f := Of(s, camera), PersonFrame(frame);
    var s' := Apply(s, Process(camera, frame), p).0;
    OfIsStructured(s, camera, p);
    FrameKeepsInvariant(o.tracks, o.nextTid, s.counter + 1, p, f);
    var tracks := s'.trackers[camera].tracks;
    forall k | 0 <= k < |tracks| ensures tracks[k].visitorId >= START {
      assert Uses(tracks, tracks[k].visitorId);
      VisitorsFrom(o.tracks, o.nextTid, s.counter + 1, p, f, tracks[k].visitorId);
    }
    forall c | c in s'.trackers && c != camera
      ensures Invariant(s'.trackers[c].tracks, s'.trackers[c].nextTid, s'.counter + 1, p)
    {
      IssuedGrows(s.trackers[c].tracks, s.trackers[c].nextTid, s.counter + 1, s'.counter - s.counter, p);
    }
  }

  lemma FrameKeepsApart(s: Service, camera: string, frame: Frame, p: Params, log: seq<Event>)
    requires Inv(s, log, p) && Enabled(s, Process(camera, frame), p)
    ensures Apart(Apply(s, Process(camera, frame), p).0)
  {
    hide Unmatched, After, Events, Words, Histories, Invariant;
    var o, f := Of(s, camera), PersonFrame(frame);
    var s' := Apply(s, Process(camera, frame), p).0;
    OfIsStructured(s, camera, p);
    var tracks := s'.trackers[camera].tracks;
    forall c, j, k | c in s'.trackers && c != camera && 0 <= j < |tracks| && 0 <= k < |s'.trackers[c].tracks|
      ensures tracks[j].visitorId != s'.trackers[c].tracks[k].visitorId
    {
      var v := s'.trackers[c].tracks[k].visitorId;
      IssuedGrows(s.trackers[c].tracks, s.trackers[c].nextTid, s.counter + 1, 0, p);
      assert Uses(s.trackers[c].tracks, v);
      if tracks[j].visitorId == v {
        assert Uses(tracks, v);
        VisitorsFrom(o.tracks, o.nextTid, s.counter + 1, p, f, v);
      }
    }
  }

  /** Resetting or removing a camera. */
  lemma DropKeepsInv(s: Service, op: Op, p: Params, log: seq<Event>)
    requires Inv(s, log, p) && !op.Process?
    ensures var (s', events) := Apply(s, op, p); Inv(s', log + events, p)
  {
    hide Kinds, Legal, History, Good;
    assert log + [] == log;
  }

  /** Every operation keeps the invariant of the whole service. */
  lemma ApplyKeepsInv(s: Service, op: Op, p: Params, log: seq<Event>)
    requires Inv(s, log, p) && Enabled(s, op, p)
    ensures var (s', events) := Apply(s, op, p); Inv(s', log + events, p)
  {
    hide Unmatched, After, Events, Kinds, Invariant, Legal, History;
    if !op.Process? {
      DropKeepsInv(s, op, p, log);
    } else {
      var o, f := Of(s, op.camera), PersonFrame(op.frame);
      var (s', events) := Apply(s, op, p);
      OfIsStructured(s, op.camera, p);
      FrameKeepsStructured(s, op.camera, op.frame, p);
      FrameKeepsApart(s, op.camera, op.frame, p, log);
      FrameKeepsHistories(o.tracks, o.nextTid, s.counter + 1, p, f, op.camera, log);
      IssuedGrows(o.tracks, o.nextTid, s.counter + 1, 0, p);
      forall v ensures Legal(Kinds(log + events, v)) && (START <= v <= s'.counter || Kinds(log + events, v) == []) {
        FrameKeepsWords(o.tracks, o.nextTid, s.counter + 1, p, f, op.camera, log, v);
        KindsSplit(log, events, v);
        assert Kinds(log, v) + [] == Kinds(log, v);
        if exists k :: 0 <= k < |o.tracks| && o.tracks[k].visitorId == v {
          assert Uses(o.tracks, v);
        }
      }
      forall c | c in s'.trackers && c != op.camera ensures Histories(s'.trackers[c].tracks, log + events) {
        OtherCamera(s, op, p, log, c);
      }
    }
  }

  lemma OtherCamera(s: Service, op: Op, p: Params, log: seq<Event>, c: string)
    requires Inv(s, log, p) && Enabled(s, op, p) && op.Process?
    requires c in s.trackers && c != op.camera
    ensures Histories(s.trackers[c].tracks, log + Apply(s, op, p).1)
  {
    hide Unmatched, After, Events, Kinds, Legal, History;
    var o, f, events := Of(s, op.camera), PersonFrame(op.frame), Apply(s, op, p).1;
    OfIsStructured(s, op.camera, p);
    var tracks := s.trackers[c].tracks;
    forall k | 0 <= k < |tracks| ensures Kinds(log + events, tracks[k].visitorId) == Kinds(log, tracks[k].visitorId) {
      var v := tracks[k].visitorId;
      FrameKeepsWords(o.tracks, o.nextTid, s.counter + 1, p, f, op.camera, log, v);
      KindsSplit(log, events, v);
      assert Kinds(log, v) + [] == Kinds(log, v);
    }
  }

  /** Safety over whole runs, for every matcher: in every reachable state each
      tracker satisfies its invariant, no visitor id is in use twice, and the
      events of every visitor so far are ENTER? REACQUIRED* EXIT?. */
  lemma {:induction false} RunKeepsInv(ops: seq<Op>, p: Params)
    requires Possible(ops, p)
    ensures var (s, log) := Run(ops, p); Inv(s, log, p)
  {
    if ops != [] {
      var init := ops[..|ops| - 1];
      RunKeepsInv(init, p);
      var (s, log) := Run(init, p);
      ApplyKeepsInv(s, ops[|ops| - 1], p, log);
    }
  }

  // ----- visitor ids

  ghost predicate Has(tracks: seq<Track>, tid: int, vid: int) {
    exists k :: 0 <= k < |tracks| && tracks[k].trackId == tid && tracks[k].visitorId == vid
  }

  /** A track alive on a camera. */
  ghost predicate Alive(s: Service, camera: string, tid: int, vid: int) {
    camera in s.trackers && Has(s.trackers[camera].tracks, tid, vid)
  }

  lemma ApplyIssues(s: Service, op: Op, p: Params, log: seq<Event>, camera: string, tid: int, vid: int)
    requires Inv(s, log, p) && Enabled(s, op, p)
    requires Alive(Apply(s, op, p).0, camera, tid, vid)
    ensures s.counter <= Apply(s, op, p).0.counter
    ensures Alive(s, camera, tid, vid) || vid > s.counter
  {
    hide Unmatched, After, Events, Kinds, Legal, History, Step, HighOf, LowOf, Good;
    if op.Process? && op.camera == camera {
      var o, f := Of(s, camera), PersonFrame(op.frame);
      OfIsStructured(s, camera, p);
      var tracks := Apply(s, op, p).0.trackers[camera].tracks;
      var k :| 0 <= k < |tracks| && tracks[k].trackId == tid && tracks[k].visitorId == vid;
      var j := Origin(o.tracks, o.nextTid, s.counter + 1, p, f, tracks[k]);
      if j < |o.tracks| {
        assert o.tracks[j].trackId == tid && o.tracks[j].visitorId == vid;
      }
    }
  }

  /** Visitor ids are never reissued: a track alive after a run with an id that
      was issued by the end of some earlier part of it is one that was alive
      then, on the same camera and with the same track id, whatever frames,
      resets and removals came between. */
  lemma {:induction false} NeverReissued(ops: seq<Op>, p: Params, n: nat, camera: string, tid: int, vid: int)
    requires n <= |ops| && Possible(ops, p)
    requires Alive(Run(ops, p).0, camera, tid, vid)
    ensures Possible(ops[..n], p)
    ensures vid <= Run(ops[..n], p).0.counter ==> Alive(Run(ops[..n], p).0, camera, tid, vid)
    decreases |ops|
  {
    if n == |ops| {
      assert ops[..n] == ops;
    } else {
      var init := ops[..|ops| - 1];
      var (s, log) := Run(init, p);
      assert init[..n] == ops[..n];
      RunKeepsInv(init, p);
      ApplyIssues(s, ops[|ops| - 1], p, log, camera, tid, vid);
      if Alive(s, camera, tid, vid) {
        NeverReissued(init, p, n, camera, tid, vid);
      } else {
        CounterGrows(init, p, n);
      }
    }
  }

  lemma {:induction false} CounterGrows(ops: seq<Op>, p: Params, n: nat)
    requires n <= |ops| && Possible(ops, p)
    ensures Possible(ops[..n], p) && Run(ops[..n], p).0.counter <= Run(ops, p).0.counter
  {
    if n == |ops| {
      assert ops[..n] == ops;
    } else {
      var init := ops[..|ops| - 1];
      assert init[..n] == ops[..n];
      CounterGrows(init, p, n);
    }
  }
}
