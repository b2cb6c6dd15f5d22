/** One track of the service over whole runs: what happens to it and what is
    reported of it depend only on what its own frames give it. */
module TrackHistories {
  import opened Options
  import opened Tracking
  import opened TrackLife
  import opened TrackFrames
  import opened TrackRuns

  // ----- the life of a track, with its end

  function NextLife(t: Option<Track>, i: Input, p: Params): Option<Track> {
    match t
    case None => None
    case Some(s) =>
      var next := Step(s, i.high, i.low, p, i.ts);
      if Expires(next, p) then None else Some(next)
  }

  function LifeRun(t: Track, inputs: seq<Input>, p: Params): Option<Track> {
    if inputs == [] then Some(t)
    else NextLife(LifeRun(t, inputs[..|inputs| - 1], p), inputs[|inputs| - 1], p)
  }

  function NextWord(t: Option<Track>, i: Input, p: Params): seq<EventKind> {
    match t
    case None => []
    case Some(s) => Word(s, i.high, i.low, p, i.ts)
  }

  /** All the events of a track. */
  function LifeWords(t: Track, inputs: seq<Input>, p: Params): seq<EventKind> {
    if inputs == [] then []
    else
      var init, last := inputs[..|inputs| - 1], inputs[|inputs| - 1];
      LifeWords(t, init, p) + NextWord(LifeRun(t, init, p), last, p)
  }

  lemma {:induction false} LifeIsRun(t: Track, inputs: seq<Input>, p: Params)
    ensures LifeRun(t, inputs, p).Some? ==> LifeRun(t, inputs, p).value == TrackLife.Run(t, inputs, p)
  {
    hide Step;
    if inputs != [] {
      LifeIsRun(t, inputs[..|inputs| - 1], p);
    }
  }

  /** A track that is always matched does not expire. */
  lemma {:induction false} MatchedLives(t: Track, inputs: seq<Input>, p: Params)
    requires Good(t, p) && (t.state == NEW || t.state == TRACKED) && AllMatched(inputs)
    ensures var s := LifeRun(t, inputs, p);
            s.Some? && Good(s.value, p) && (s.value.state == NEW || s.value.state == TRACKED)
  {
    hide Step, Good;
    if inputs != [] {
      var init, last := inputs[..|inputs| - 1], inputs[|inputs| - 1];
      AllMatchedSnoc(inputs);
      MatchedLives(t, init, p);
      var s := LifeRun(t, init, p).value;
      StepByCase(s, last.high, last.low, p, last.ts);
    }
  }

  /** A new track enters during a run exactly when its first min_hits - 1 frames
      are there and each matched it with high confidence. */
  lemma {:induction false} LifeEnters(t: Track, inputs: seq<Input>, p: Params)
    requires t.state == NEW && t.hits == 1 && Good(t, p)
    ensures ENTER in LifeWords(t, inputs, p) <==>
            p.minHits - 1 <= |inputs| && AllMatched(inputs[..p.minHits - 1])
  {
    hide Step, Word, AllMatched;
    var n := p.minHits - 1;
    if inputs != [] {
      var init, last := inputs[..|inputs| - 1], inputs[|inputs| - 1];
      LifeEnters(t, init, p);
      LifeIsRun(t, init, p);
      EntersExactlyWhen(t, inputs, p);
      if n < |inputs| {
        assert init[..n] == inputs[..n];
      } else if n == |inputs| {
        assert inputs[..n] == inputs;
        AllMatchedSnoc(inputs);
        if AllMatched(init) {
          MatchedLives(t, init, p);
        }
      }
    }
  }

  lemma {:induction false} AllExpire(t: Track, inputs: seq<Input>, p: Params)
    requires (t.state == TRACKED || t.state == NEW) && Good(t, p) && NoneMatched(inputs) && p.maxLost >= 0
    ensures LifeRun(t, inputs, p) == None <==> |inputs| >= (p.maxLost + 1) / 2 + 1
    ensures EXIT in LifeWords(t, inputs, p) <==> LifeRun(t, inputs, p) == None
  {
    hide Step, Good;
    if inputs != [] {
      var init, last := inputs[..|inputs| - 1], inputs[|inputs| - 1];
      AllExpire(t, init, p);
      LifeIsRun(t, init, p);
      RemovedExactlyWhen(t, inputs, p);
    }
  }

  // ----- one operation

  /** Where a track stands in the service: on its camera, or nowhere any more. */
  ghost predicate Follows(s: Service, camera: string, tid: int, vid: int, t: Option<Track>) {
    && START <= vid <= s.counter
    && match t
       case Some(u) =>
         camera in s.trackers && u in s.trackers[camera].tracks && u.trackId == tid && u.visitorId == vid
       case None => forall c :: c in s.trackers ==> !Uses(s.trackers[c].tracks, vid)
  }

  /** What a frame of its camera gives a track. */
  function InputOf(s: Service, op: Op, tid: int, p: Params): Input
    requires op.Process? && Enabled(s, op, p)
  {
    var tracks, f := Of(s, op.camera).tracks, PersonFrame(op.frame);
    Input(HighOf(tracks, p, f, tid), LowOf(tracks, p, f, tid), f.timestamp)
  }

  lemma FrameFollows(tracks: seq<Track>, tid: int, vid: int, p: Params, f: Frame, camera: string, t: Track)
    requires Invariant(tracks, tid, vid, p) && Answers(tracks, p, f) && t in tracks
    ensures var high, low := HighOf(tracks, p, f, t.trackId), LowOf(tracks, p, f, t.trackId);
            var next, after := Step(t, high, low, p, f.timestamp), After(tracks, tid, vid, p, f);
            && Kinds(Events(tracks, tid, vid, p, f, camera), t.visitorId) == Word(t, high, low, p, f.timestamp)
            && next.trackId == t.trackId && next.visitorId == t.visitorId
            && (if Expires(next, p) then !Uses(after, t.visitorId) else next in after)
  {
    hide HighOf, LowOf, Unmatched, Before, Events, Kinds, Word, After, Good;
    var k :| 0 <= k < |tracks| && tracks[k] == t;
    EventsOfTrack(tracks, tid, vid, p, f, camera, k);
    AllSteps(tracks, tid, vid, p, f);
    FrameKeepsInvariant(tracks, tid, vid, p, f);
    var all, after := PromoteAll(Before(tracks, tid, vid, p, f), p), After(tracks, tid, vid, p, f);
    assert all[k] in all;
    forall j | 0 <= j < |after| && after[j].visitorId == t.visitorId ensures !Expires(all[k], p) {
      assert after[j] in after;
      var i :| 0 <= i < |all| && all[i] == after[j];
      TrackIn(tracks, tid, vid, p, f, i);
      assert i == k;
    }
  }

  /** One frame of the track's camera. */
  lemma ProcessFollows(s: Service, op: Op, p: Params, log: seq<Event>, tid: int, vid: int, t: Option<Track>)
    requires Inv(s, log, p) && Enabled(s, op, p) && op.Process? && Follows(s, op.camera, tid, vid, t)
    ensures var (s', events) := Apply(s, op, p);
            && Follows(s', op.camera, tid, vid, NextLife(t, InputOf(s, op, tid, p), p))
            && Kinds(events, vid) == NextWord(t, InputOf(s, op, tid, p), p)
  {
    hide HighOf, LowOf, Unmatched, Events, Kinds, Word, After, Step, Good, Words, Histories, Invariant;
    OfIsStructured(s, op.camera, p);
    if t.None? {
      OthersFollow(s, op, p, log, op.camera, tid, vid, t);
    } else {
      var o, f := Of(s, op.camera), PersonFrame(op.frame);
      FrameFollows(o.tracks, o.nextTid, s.counter + 1, p, f, op.camera, t.value);
      if NextLife(t, InputOf(s, op, tid, p), p).None? {
        ElsewhereNone(s, op.camera, vid, t.value);
      }
    }
  }

  /** A visitor is on one camera only. */
  lemma ElsewhereNone(s: Service, camera: string, vid: int, t: Track)
    requires Apart(s) && camera in s.trackers && t in s.trackers[camera].tracks && t.visitorId == vid
    ensures forall c :: c in s.trackers && c != camera ==> !Uses(s.trackers[c].tracks, vid)
  {
    var k :| 0 <= k < |s.trackers[camera].tracks| && s.trackers[camera].tracks[k] == t;
  }

  /** A frame that does not meet the track, and anything but a drop of its camera. */
  lemma OthersFollow(s: Service, op: Op, p: Params, log: seq<Event>, camera: string, tid: int, vid: int,
                     t: Option<Track>)
    requires Inv(s, log, p) && Enabled(s, op, p) && Follows(s, camera, tid, vid, t)
    requires t.Some? ==> op.camera != camera
    ensures var (s', events) := Apply(s, op, p); Follows(s', camera, tid, vid, t) && Kinds(events, vid) == []
  {
    hide HighOf, LowOf, Unmatched, Events, After, Step, Good, Words, Histories, Invariant, Matches1, Matches2;
    if op.Process? {
      var o, f := Of(s, op.camera), PersonFrame(op.frame);
      OfIsStructured(s, op.camera, p);
      if t.Some? {
        ElsewhereNone(s, camera, vid, t.value);
      }
      assert !Uses(o.tracks, vid);
      assert forall k :: 0 <= k < |o.tracks| ==> o.tracks[k].visitorId != vid;
      EventsOfOther(o.tracks, o.nextTid, s.counter + 1, p, f, op.camera, vid);
      var after := After(o.tracks, o.nextTid, s.counter + 1, p, f);
      if Uses(after, vid) {
        VisitorsFrom(o.tracks, o.nextTid, s.counter + 1, p, f, vid);
      }
    }
  }

  // ----- whole runs

  ghost predicate Kept(ops: seq<Op>, n: nat, camera: string) {
    forall k :: n <= k < |ops| && !ops[k].Process? ==> ops[k].camera != camera
  }

  /** What a track is given after the first n operations. */
  function Inputs(ops: seq<Op>, n: nat, camera: string, tid: int, p: Params): seq<Input>
    requires Possible(ops, p) && n <= |ops|
  {
    if |ops| == n then []
    else
      var init, op := ops[..|ops| - 1], ops[|ops| - 1];
      Inputs(init, n, camera, tid, p)
      + if op.Process? && op.camera == camera then [InputOf(TrackRuns.Run(init, p).0, op, tid, p)] else []
  }

  /** A track that is there after n operations, on a camera that is not reset or
      removed later: its state and its events are its own life's. */
  lemma {:induction false} ServiceFollows(ops: seq<Op>, n: nat, camera: string, t: Track, p: Params)
    requires Possible(ops, p) && n <= |ops| && Kept(ops, n, camera)
    requires Possible(ops[..n], p)
    requires camera in TrackRuns.Run(ops[..n], p).0.trackers
    requires t in TrackRuns.Run(ops[..n], p).0.trackers[camera].tracks
    ensures var inputs := Inputs(ops, n, camera, t.trackId, p);
            && Follows(TrackRuns.Run(ops, p).0, camera, t.trackId, t.visitorId, LifeRun(t, inputs, p))
            && Kinds(TrackRuns.Run(ops, p).1, t.visitorId)
               == Kinds(TrackRuns.Run(ops[..n], p).1, t.visitorId) + LifeWords(t, inputs, p)
    decreases |ops|
  {
    hide Kinds, Apply, NextLife, NextWord, Inv, InputOf, Follows, Answers, LifeRun, LifeWords, Inputs;
    if |ops| == n {
      assert ops[..n] == ops;
      RunKeepsInv(ops, p);
      Present(TrackRuns.Run(ops, p).0, TrackRuns.Run(ops, p).1, p, camera, t);
      InputsStart(ops, camera, t, p);
      var w := Kinds(TrackRuns.Run(ops, p).1, t.visitorId);
      assert w + [] == w;
    } else {
      var init, op := ops[..|ops| - 1], ops[|ops| - 1];
      assert init[..n] == ops[..n];
      ServiceFollows(init, n, camera, t, p);
      assert !op.Process? ==> op.camera != camera;
      var before := Inputs(init, n, camera, t.trackId, p);
      ApplyFollows(init, op, p, camera, t, LifeRun(t, before, p));
      InputsStep(ops, n, camera, t.trackId, p);
      if op.Process? && op.camera == camera {
        LifeSnoc(t, before, InputOf(TrackRuns.Run(init, p).0, op, t.trackId, p), p);
      } else {
        var words := LifeWords(t, before, p);
        assert before + [] == before;
      }
    }
  }

  lemma InputsStart(ops: seq<Op>, camera: string, t: Track, p: Params)
    requires Possible(ops, p)
    ensures Inputs(ops, |ops|, camera, t.trackId, p) == [] && LifeRun(t, [], p) == Some(t) && LifeWords(t, [], p) == []
  {}

  lemma InputsStep(ops: seq<Op>, n: nat, camera: string, tid: int, p: Params)
    requires Possible(ops, p) && n < |ops|
    ensures var init, op := ops[..|ops| - 1], ops[|ops| - 1];
            Inputs(ops, n, camera, tid, p) ==
            Inputs(init, n, camera, tid, p)
            + if op.Process? && op.camera == camera then [InputOf(TrackRuns.Run(init, p).0, op, tid, p)] else []
  {
    hide InputOf, Answers;
  }

  lemma LifeSnoc(t: Track, inputs: seq<Input>, i: Input, p: Params)
    ensures LifeRun(t, inputs + [i], p) == NextLife(LifeRun(t, inputs, p), i, p)
    ensures LifeWords(t, inputs + [i], p) == LifeWords(t, inputs, p) + NextWord(LifeRun(t, inputs, p), i, p)
  {
    hide NextLife, NextWord;
    assert (inputs + [i])[..|inputs|] == inputs;
  }

  lemma ApplyFollows(init: seq<Op>, op: Op, p: Params, camera: string, t: Track, now: Option<Track>)
    requires Possible(init, p) && Enabled(TrackRuns.Run(init, p).0, op, p)
    requires Follows(TrackRuns.Run(init, p).0, camera, t.trackId, t.visitorId, now)
    requires op.Process? || op.camera != camera
    ensures var (s, log) := TrackRuns.Run(init, p);
            var (s', events) := Apply(s, op, p);
            var met := op.Process? && op.camera == camera;
            && Follows(s', camera, t.trackId, t.visitorId,
                       if met then NextLife(now, InputOf(s, op, t.trackId, p), p) else now)
            && Kinds(log + events, t.visitorId)
               == Kinds(log, t.visitorId) + if met then NextWord(now, InputOf(s, op, t.trackId, p), p) else []
  {
    hide Kinds, Apply, NextLife, NextWord, Inv, InputOf, Follows, Answers;
    RunKeepsInv(init, p);
    var (s, log) := TrackRuns.Run(init, p);
    KindsSplit(log, Apply(s, op, p).1, t.visitorId);
    if op.Process? && op.camera == camera {
      ProcessFollows(s, op, p, log, t.trackId, t.visitorId, now);
    } else {
      OthersFollow(s, op, p, log, camera, t.trackId, t.visitorId, now);
    }
  }

  lemma Present(s: Service, log: seq<Event>, p: Params, camera: string, t: Track)
    requires Inv(s, log, p) && camera in s.trackers && t in s.trackers[camera].tracks
    ensures Follows(s, camera, t.trackId, t.visitorId, Some(t))
    ensures Good(t, p) && History(t, Kinds(log, t.visitorId))
  {
    hide Kinds, Words, Apart, Good, Open;
    var k :| 0 <= k < |s.trackers[camera].tracks| && s.trackers[camera].tracks[k] == t;
  }

  /** Entering, over any run of the service: a track just created enters if and
      only if the next min_hits - 1 frames of its camera are there and each
      matched it with a high-confidence detection. */
  lemma VisitorEntersExactlyWhen(ops: seq<Op>, n: nat, camera: string, t: Track, p: Params)
    requires Possible(ops, p) && n <= |ops| && Kept(ops, n, camera)
    requires Possible(ops[..n], p)
    requires camera in TrackRuns.Run(ops[..n], p).0.trackers
    requires t in TrackRuns.Run(ops[..n], p).0.trackers[camera].tracks && t.state == NEW && t.hits == 1
    ensures ENTER in Kinds(TrackRuns.Run(ops, p).1, t.visitorId) <==>
            var inputs := Inputs(ops, n, camera, t.trackId, p);
            0 <= p.minHits - 1 <= |inputs| && AllMatched(inputs[..p.minHits - 1])
  {
    hide Kinds, Inputs, LifeWords, LifeRun, AllMatched, Inv;
    RunKeepsInv(ops[..n], p);
    Present(TrackRuns.Run(ops[..n], p).0, TrackRuns.Run(ops[..n], p).1, p, camera, t);
    ServiceFollows(ops, n, camera, t, p);
    LifeEnters(t, Inputs(ops, n, camera, t.trackId, p), p);
  }

  /** Removal, over any run of the service: a track that its camera's frames
      leave unmatched exits if and only if there are (max_lost + 1) div 2 + 1 of
      them, and is then nowhere any more. */
  lemma VisitorRemovedExactlyWhen(ops: seq<Op>, n: nat, camera: string, t: Track, p: Params)
    requires Possible(ops, p) && n <= |ops| && Kept(ops, n, camera) && p.maxLost >= 0
    requires Possible(ops[..n], p)
    requires camera in TrackRuns.Run(ops[..n], p).0.trackers
    requires t in TrackRuns.Run(ops[..n], p).0.trackers[camera].tracks && (t.state == NEW || t.state == TRACKED)
    requires NoneMatched(Inputs(ops, n, camera, t.trackId, p))
    ensures var frames := |Inputs(ops, n, camera, t.trackId, p)|;
            && (EXIT in Kinds(TrackRuns.Run(ops, p).1, t.visitorId) <==> frames >= (p.maxLost + 1) / 2 + 1)
            && (frames >= (p.maxLost + 1) / 2 + 1 ==>
                  Follows(TrackRuns.Run(ops, p).0, camera, t.trackId, t.visitorId, None))
  {
    hide Kinds, Inputs, LifeWords, LifeRun, NoneMatched, Inv, Follows;
    RunKeepsInv(ops[..n], p);
    Present(TrackRuns.Run(ops[..n], p).0, TrackRuns.Run(ops[..n], p).1, p, camera, t);
    ServiceFollows(ops, n, camera, t, p);
    AllExpire(t, Inputs(ops, n, camera, t.trackId, p), p);
    NoExitYet(t, Kinds(TrackRuns.Run(ops[..n], p).1, t.visitorId));
  }

  lemma NoExitYet(t: Track, w: seq<EventKind>)
    requires History(t, w)
    ensures EXIT !in w
  {}
}
