/** What the tracker makes of its inputs, in terms of the confidences and costs
    themselves: which detections and pairs are used, in which order, what a
    frame without a strong detection does, and what a match changes. */
module Detections {
  import opened Options
  import opened Parts
  import opened Matching
  import opened Tracking
  import opened TrackLife
  import opened TrackFrames
  import opened TrackRuns

  // ----- which detections are used

  /** The strong detections: those at or above the high threshold, in order. */
  lemma {:induction false} HighAt(ds: seq<Detection>, p: Params) returns (at: seq<nat>)
    ensures PartAt(High(ds, p), ds, at)
    ensures forall i :: 0 <= i < |ds| ==> (i in at <==> ds[i].confidence >= p.highThresh)
  {
    hide PartAt;
    at := [];
    if ds == [] {
      NoPart<Detection>();
    } else {
      var n := |ds| - 1;
      var before := HighAt(ds[..n], p);
      assert forall i :: 0 <= i < n ==> ds[..n][i] == ds[i];
      PartSnoc(High(ds[..n], p), ds, before, ds[n].confidence >= p.highThresh);
      at := before + if ds[n].confidence >= p.highThresh then [n] else [];
    }
  }

  /** The weak ones: from the low threshold up to the high one, in order. */
  lemma {:induction false} LowAt(ds: seq<Detection>, p: Params) returns (at: seq<nat>)
    ensures PartAt(Low(ds, p), ds, at)
    ensures forall i :: 0 <= i < |ds| ==> (i in at <==> p.lowThresh <= ds[i].confidence < p.highThresh)
  {
    hide PartAt;
    at := [];
    if ds == [] {
      NoPart<Detection>();
    } else {
      var n := |ds| - 1;
      var before := LowAt(ds[..n], p);
      assert forall i :: 0 <= i < n ==> ds[..n][i] == ds[i];
      PartSnoc(Low(ds[..n], p), ds, before, (p.lowThresh <= ds[n].confidence < p.highThresh));
      at := before + if (p.lowThresh <= ds[n].confidence < p.highThresh) then [n] else [];
    }
  }

  /** The service tracks persons only: class 0, in order. */
  lemma {:induction false} PersonsAt(ds: seq<Detection>) returns (at: seq<nat>)
    ensures PartAt(Persons(ds), ds, at)
    ensures forall i :: 0 <= i < |ds| ==> (i in at <==> ds[i].classId == 0)
  {
    hide PartAt;
    at := [];
    if ds == [] {
      NoPart<Detection>();
    } else {
      var n := |ds| - 1;
      var before := PersonsAt(ds[..n]);
      assert forall i :: 0 <= i < n ==> ds[..n][i] == ds[i];
      PartSnoc(Persons(ds[..n]), ds, before, ds[n].classId == 0);
      at := before + if ds[n].classId == 0 then [n] else [];
    }
  }

  lemma CountSnoc<T>(s: seq<T>, more: seq<T>, d: T)
    ensures multiset(s + more)[d] == multiset(s)[d] + multiset(more)[d]
  {}

  lemma {:induction false} StrongUsed(ds: seq<Detection>, p: Params, d: Detection)
    ensures multiset(High(ds, p))[d] == if d.confidence >= p.highThresh then multiset(ds)[d] else 0
  {
    if ds != [] {
      var n := |ds| - 1;
      StrongUsed(ds[..n], p, d);
      assert ds == ds[..n] + [ds[n]];
      CountSnoc(ds[..n], [ds[n]], d);
      CountSnoc(High(ds[..n], p), if ds[n].confidence >= p.highThresh then [ds[n]] else [], d);
    }
  }

  lemma {:induction false} WeakUsed(ds: seq<Detection>, p: Params, d: Detection)
    ensures multiset(Low(ds, p))[d] == if p.lowThresh <= d.confidence < p.highThresh then multiset(ds)[d] else 0
  {
    if ds != [] {
      var n := |ds| - 1;
      WeakUsed(ds[..n], p, d);
      assert ds == ds[..n] + [ds[n]];
      CountSnoc(ds[..n], [ds[n]], d);
      CountSnoc(Low(ds[..n], p), if p.lowThresh <= ds[n].confidence < p.highThresh then [ds[n]] else [], d);
    }
  }

  /** How often a detection is used: as often as it was detected, by confidence
      alone; strong and weak ones are disjoint. */
  lemma UsedExactly(ds: seq<Detection>, p: Params, d: Detection)
    ensures multiset(High(ds, p))[d] == if d.confidence >= p.highThresh then multiset(ds)[d] else 0
    ensures multiset(Low(ds, p))[d] == if p.lowThresh <= d.confidence < p.highThresh then multiset(ds)[d] else 0
  {
    StrongUsed(ds, p, d);
    WeakUsed(ds, p, d);
  }

  /** How many detections are strong. */
  function Strong(ds: seq<Detection>, thresh: real): set<nat> {
    set i: nat | i < |ds| && ds[i].confidence >= thresh
  }

  lemma {:induction false} StrongCount(ds: seq<Detection>, p: Params)
    ensures |High(ds, p)| == |Strong(ds, p.highThresh)|
  {
    if ds != [] {
      var n := |ds| - 1;
      StrongCount(ds[..n], p);
      StrongSnoc(ds, p.highThresh);
    } else {
      assert Strong(ds, p.highThresh) == {};
    }
  }

  lemma StrongSnoc(ds: seq<Detection>, thresh: real)
    requires ds != []
    ensures var n := |ds| - 1;
            |Strong(ds, thresh)| == |Strong(ds[..n], thresh)| + if ds[n].confidence >= thresh then 1 else 0
  {
    var n := |ds| - 1;
    var before := Strong(ds[..n], thresh);
    assert forall i :: 0 <= i < n ==> ds[..n][i] == ds[i];
    assert Strong(ds, thresh) == if ds[n].confidence >= thresh then before + {n} else before;
  }

  // ----- which pairs are used

  /** Tracked, new and lost tracks, in this order and each in order of the list:
      what the rows of the first cost matrix are. */
  lemma CandidatesInOrder(tracks: seq<Track>)
    returns (tracked: seq<nat>, created: seq<nat>, lost: seq<nat>)
    ensures Ascending(tracked) && Ascending(created) && Ascending(lost)
    ensures var at := tracked + created + lost;
            && |at| == |Candidates(tracks)|
            && (forall k :: 0 <= k < |at| ==> at[k] < |tracks| && Candidates(tracks)[k] == tracks[at[k]])
    ensures |lost| == |Lost(tracks)|
            && forall k :: 0 <= k < |lost| ==> lost[k] < |tracks| && Lost(tracks)[k] == tracks[lost[k]]
    ensures forall i :: 0 <= i < |tracks| ==>
              && (i in tracked <==> tracks[i].state == TRACKED)
              && (i in created <==> tracks[i].state == NEW)
              && (i in lost <==> tracks[i].state == LOST)
  {
    tracked := StateAt(tracks, TRACKED);
    created := StateAt(tracks, NEW);
    lost := StateAt(tracks, LOST);
  }

  lemma {:induction false} StateAt(tracks: seq<Track>, state: TrackState) returns (at: seq<nat>)
    ensures PartAt(InState(tracks, state), tracks, at)
    ensures forall i :: 0 <= i < |tracks| ==> (i in at <==> tracks[i].state == state)
  {
    hide PartAt;
    at := [];
    if tracks == [] {
      NoPart<Track>();
    } else {
      var n := |tracks| - 1;
      var before := StateAt(tracks[..n], state);
      assert forall i :: 0 <= i < n ==> tracks[..n][i] == tracks[i];
      PartSnoc(InState(tracks[..n], state), tracks, before, tracks[n].state == state);
      at := before + if tracks[n].state == state then [n] else [];
    }
  }

  /** A pair of the solver counts in a stage exactly when its cost is at most
      1 - match_thresh. */
  lemma PairsWithinCost(tracks: seq<Track>, p: Params, f: Frame)
    requires Answers(tracks, p, f)
    ensures forall pair :: pair in Matches1(tracks, p, f) <==>
                           pair in f.pairs1 && f.cost1[pair.0][pair.1] <= 1.0 - p.matchThresh
    ensures forall pair :: pair in Matches2(tracks, p, f) <==>
                           pair in f.pairs2 && f.cost2[pair.0][pair.1] <= 1.0 - p.matchThresh
  {
    hide Candidates, Lost, High, Low, Kept;
    KeptIsAssignment(f.cost1, f.pairs1, 1.0 - p.matchThresh, |Candidates(tracks)|, |High(f.detections, p)|);
    KeptIsAssignment(f.cost2, f.pairs2, 1.0 - p.matchThresh, |Lost(tracks)|, |Low(f.detections, p)|);
  }

  /** A weak detection serves the lost track it is matched with, and no other:
      tracks that were not lost are given none. */
  lemma WeakServeLost(tracks: seq<Track>, p: Params, f: Frame)
    requires Ordered(tracks) && AllGood(tracks, p) && Answers(tracks, p, f)
    ensures forall k :: 0 <= k < |Matches2(tracks, p, f)| ==>
              var (r, c) := Matches2(tracks, p, f)[k];
              && r < |Lost(tracks)| && c < |Low(f.detections, p)|
              && LowOf(tracks, p, f, Lost(tracks)[r].trackId) == Some(Low(f.detections, p)[c])
    ensures forall t :: t in tracks && t.state != LOST ==> LowOf(tracks, p, f, t.trackId) == None
  {
    hide Given, Matches1, Matches2, Candidates, Lost, High, Low;
    AnswersKept(tracks, p, f);
    CandidatesExact(tracks, p);
    var matches, low := Matches2(tracks, p, f), Low(f.detections, p);
    forall k | 0 <= k < |matches|
      ensures LowOf(tracks, p, f, Lost(tracks)[matches[k].0].trackId) == Some(low[matches[k].1])
    {
      GivenAll(Lost(tracks), matches, low, k);
    }
    forall t | t in tracks && t.state != LOST ensures t.trackId !in Given(Lost(tracks), matches, low) {
      NotGiven(tracks, matches, low, t);
    }
  }

  lemma NotGiven(tracks: seq<Track>, matches: seq<Pair>, low: seq<Detection>, t: Track)
    requires Ordered(tracks) && t in tracks && t.state != LOST
    requires forall u :: u in Lost(tracks) <==> u in tracks && u.state == LOST
    requires IsAssignment(matches, |Lost(tracks)|, |low|)
    ensures t.trackId !in Given(Lost(tracks), matches, low)
  {
    hide Given, Lost;
    if t.trackId in Given(Lost(tracks), matches, low) {
      var k := GivenOnly(Lost(tracks), matches, low, t.trackId);
      var u := Lost(tracks)[matches[k].0];
      assert u in Lost(tracks);
      SameTrack(tracks, t, u);
      assert false;
    }
  }

  // ----- frames

  /** Conservation by confidence: tracks after a frame and exits are tracks
      before and strong detections, less the matches of the first stage. */
  lemma TracksByConfidence(tracks: seq<Track>, tid: int, vid: int, p: Params, f: Frame, camera: string)
    requires Answers(tracks, p, f)
    ensures |After(tracks, tid, vid, p, f)| + Count(Events(tracks, tid, vid, p, f, camera), EXIT)
            == |tracks| + |Strong(f.detections, p.highThresh)| - |Matches1(tracks, p, f)|
  {
    hide Candidates, Lost, High, Low, Kept, After, Events, Strong;
    TracksConserved(tracks, tid, vid, p, f, camera);
    Partition(f.cost1, f.pairs1, 1.0 - p.matchThresh, |Candidates(tracks)|, |High(f.detections, p)|);
    StrongCount(f.detections, p);
  }

  /** A frame all of whose detections are below the high threshold creates no
      track, and every track that is left is LOST. */
  lemma WeakFrame(tracks: seq<Track>, tid: int, vid: int, p: Params, f: Frame)
    requires Invariant(tracks, tid, vid, p) && Answers(tracks, p, f)
    requires forall d :: d in f.detections ==> d.confidence < p.highThresh
    ensures Unmatched(tracks, p, f) == []
    ensures forall s :: s in After(tracks, tid, vid, p, f) ==>
              s.state == LOST && exists t :: t in tracks && t.trackId == s.trackId && t.visitorId == s.visitorId
  {
    hide Candidates, Lost, Low, HighOf, LowOf, Before, After, Step, Good;
    NoneStrong(f.detections, p);
    NothingStrong(tracks, p, f);
    forall s | s in After(tracks, tid, vid, p, f)
      ensures s.state == LOST && exists t :: t in tracks && t.trackId == s.trackId && t.visitorId == s.visitorId
    {
      var k := Origin(tracks, tid, vid, p, f, s);
      var t := tracks[k];
      assert t in tracks;
      assert Good(t, p);
      StepByCase(t, HighOf(tracks, p, f, t.trackId), LowOf(tracks, p, f, t.trackId), p, f.timestamp);
      StaysAway(t, LowOf(tracks, p, f, t.trackId), p, f.timestamp);
    }
  }

  lemma {:induction false} NoneStrong(ds: seq<Detection>, p: Params)
    requires forall d :: d in ds ==> d.confidence < p.highThresh
    ensures High(ds, p) == []
  {
    if ds != [] {
      NoneStrong(ds[..|ds| - 1], p);
      assert ds[|ds| - 1] in ds;
    }
  }

  lemma StaysAway(t: Track, low: Option<Detection>, p: Params, ts: real)
    requires Good(t, p)
    ensures Step(t, None, low, p, ts).state == LOST
  {}

  lemma NothingStrong(tracks: seq<Track>, p: Params, f: Frame)
    requires Answers(tracks, p, f) && High(f.detections, p) == []
    ensures Unmatched(tracks, p, f) == [] && Matches1(tracks, p, f) == []
    ensures forall id :: HighOf(tracks, p, f, id) == None
  {
    hide Candidates, Lost, Low, Kept;
    AnswersKept(tracks, p, f);
    var matches := Matches1(tracks, p, f);
    assert |matches| > 0 ==> matches[0].1 < 0;
  }

  /** What a frame makes of a track, field by field: prediction ages it, a match
      gives it the confidence and time of its last detection, and a hit. */
  lemma FieldsAfter(t: Track, high: Option<Detection>, low: Option<Detection>, p: Params, ts: real)
    requires Good(t, p)
    ensures var s := Step(t, high, low, p, ts);
            var second := t.state == LOST && low.Some?;
            && s.trackId == t.trackId && s.visitorId == t.visitorId && s.startTs == t.startTs && s.classId == t.classId
            && s.age == t.age + 1
            && s.hits == t.hits + (if high.Some? then 1 else 0) + (if second then 1 else 0)
            && s.confidence == (if second then low.value.confidence
                                else if high.Some? then high.value.confidence else t.confidence)
            && s.lastTs == (if second || high.Some? then ts else t.lastTs)
  {}

  /** A new track, field by field. */
  lemma FieldsOfNew(tid: int, vid: int, d: Detection, p: Params, ts: real)
    ensures var s := Promoted(NewTrack(tid, vid, d, ts), p);
            && s.trackId == tid && s.visitorId == vid && s.confidence == d.confidence && s.classId == d.classId
            && s.age == 1 && s.hits == 1 && s.timeSinceUpdate == 0 && s.startTs == ts && s.lastTs == ts
            && s.state == if p.minHits <= 1 then TRACKED else NEW
  {}

  // ----- events

  /** Every event carries the camera and the time of its frame and belongs to a
      track of it; only an exit carries a dwell, the time since the track began. */
  ghost predicate Carries(e: Event, t: Track, camera: string, ts: real) {
    && e.visitorId == t.visitorId && e.trackId == t.trackId && e.camera == camera && e.timestamp == ts
    && e.dwellSeconds == if e.kind == EXIT then ts - t.startTs else 0.0
  }

  lemma {:induction false} ReacquiredCarries(tracks: seq<Track>, matches: seq<Pair>, camera: string, ts: real)
    requires forall k :: 0 <= k < |matches| ==> matches[k].0 < |tracks|
    ensures forall e :: e in Reacquired(tracks, matches, camera, ts) ==>
              e.kind == REACQUIRED && exists t :: t in tracks && Carries(e, t, camera, ts)
  {
    if matches != [] {
      ReacquiredCarries(tracks, matches[..|matches| - 1], camera, ts);
      var t := tracks[matches[|matches| - 1].0];
      assert t in tracks && Carries(EventOf(REACQUIRED, t, camera, ts), t, camera, ts);
    }
  }

  lemma {:induction false} EnteredCarries(tracks: seq<Track>, p: Params, camera: string, ts: real)
    ensures forall e :: e in Entered(tracks, p, camera, ts) ==>
              e.kind == ENTER && exists t :: t in tracks && Carries(e, t, camera, ts)
  {
    if tracks != [] {
      EnteredCarries(tracks[..|tracks| - 1], p, camera, ts);
      var t := tracks[|tracks| - 1];
      assert t in tracks && Carries(EventOf(ENTER, t, camera, ts), t, camera, ts);
      assert forall u :: u in tracks[..|tracks| - 1] ==> u in tracks;
    }
  }

  lemma {:induction false} ExitedCarries(tracks: seq<Track>, p: Params, camera: string, ts: real)
    ensures forall e :: e in Exited(tracks, p, camera, ts) ==>
              e.kind == EXIT && exists t :: t in tracks && Carries(e, t, camera, ts)
  {
    if tracks != [] {
      ExitedCarries(tracks[..|tracks| - 1], p, camera, ts);
      var t := tracks[|tracks| - 1];
      assert t in tracks && Carries(EventOf(EXIT, t, camera, ts), t, camera, ts);
      assert forall u :: u in tracks[..|tracks| - 1] ==> u in tracks;
    }
  }

  /** All the events of a frame. */
  lemma EventsCarry(tracks: seq<Track>, tid: int, vid: int, p: Params, f: Frame, camera: string)
    requires Ordered(tracks) && AllGood(tracks, p) && Answers(tracks, p, f)
    ensures forall e :: e in Events(tracks, tid, vid, p, f, camera) ==>
              exists t :: t in tracks + Before(tracks, tid, vid, p, f) && Carries(e, t, camera, f.timestamp)
  {
    hide High, Low, Before, Carries, Unmatched, Reacquired, Entered, Exited, Candidates, Lost, Good;
    AnswersKept(tracks, p, f);
    CandidatesExact(tracks, p);
    var before := Before(tracks, tid, vid, p, f);
    ReacquiredCarries(Candidates(tracks), Matches1(tracks, p, f), camera, f.timestamp);
    ReacquiredCarries(Lost(tracks), Matches2(tracks, p, f), camera, f.timestamp);
    EnteredCarries(before, p, camera, f.timestamp);
    ExitedCarries(PromoteAll(before, p), p, camera, f.timestamp);
    forall e | e in Exited(PromoteAll(before, p), p, camera, f.timestamp)
      ensures exists t :: t in before && Carries(e, t, camera, f.timestamp)
    {
      var t :| t in PromoteAll(before, p) && Carries(e, t, camera, f.timestamp);
      var k :| 0 <= k < |before| && PromoteAll(before, p)[k] == t;
      PromotedCarries(e, before[k], p, camera, f.timestamp);
    }
  }

  lemma PromotedCarries(e: Event, t: Track, p: Params, camera: string, ts: real)
    requires Carries(e, Promoted(t, p), camera, ts)
    ensures Carries(e, t, camera, ts)
  {}

  // ----- the service

  /** A reset forgets the tracks of one camera and keeps its next track id; a
      removal forgets its tracker, so that track ids begin again at 1; neither
      touches another camera, emits an event, or gives visitor ids back. */
  lemma DropsExactly(s: Service, camera: string, p: Params)
    ensures var (after, events) := Apply(s, ResetCamera(camera), p);
            && events == [] && after.counter == s.counter && after.trackers.Keys == s.trackers.Keys
            && (camera in s.trackers ==> after.trackers[camera] == Tracker([], s.trackers[camera].nextTid))
            && (forall c :: c in s.trackers && c != camera ==> after.trackers[c] == s.trackers[c])
    ensures var (after, events) := Apply(s, RemoveCamera(camera), p);
            && events == [] && after.counter == s.counter && after.trackers.Keys == s.trackers.Keys - {camera}
            && (forall c :: c in after.trackers ==> after.trackers[c] == s.trackers[c])
            && Of(after, camera) == Tracker([], 1)
  {}

  /** A frame of a camera uses its persons only, gives its new tracks the next
      track ids of the camera and the next visitor ids of all cameras, which begin
      at 101, and leaves the other cameras alone. */
  lemma ProcessExactly(s: Service, camera: string, frame: Frame, p: Params)
    requires Enabled(s, Process(camera, frame), p)
    ensures INITIAL.counter + 1 == 101 && INITIAL.trackers == map[]
    ensures var (after, events) := Apply(s, Process(camera, frame), p);
            var f := frame.(detections := Persons(frame.detections));
            var n := |Unmatched(Of(s, camera).tracks, p, f)|;
            && after.counter == s.counter + n && after.trackers.Keys == s.trackers.Keys + {camera}
            && after.trackers[camera].nextTid == Of(s, camera).nextTid + n
            && (forall c :: c in s.trackers && c != camera ==> after.trackers[c] == s.trackers[c])
  {
    hide Unmatched, After, Events, Answers;
  }
}
