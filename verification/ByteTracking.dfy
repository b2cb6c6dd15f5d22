/** The tracker's objects: `STrack`, `VisitorIDGenerator` and `ByteTracker`,
    whose `update` is proved to be one frame of the value model. */
module ByteTracking {
  import opened Options
  import opened Matching
  import opened Tracking
  import opened TrackLife
  import opened TrackFrames

  class VisitorIDGenerator {
    var counter: int

    constructor ()
      ensures counter == 100
    {
      counter := 100;
    }

    method NextId() returns (id: int)
      modifies this
      ensures id == counter == old(counter) + 1
    {
      counter := counter + 1;
      id := counter;
    }
  }

  class STrack {
    const trackId: int
    const visitorId: int
    var state: TrackState
    var confidence: real
    var age: int
    var hits: int
    var timeSinceUpdate: int
    const startTs: real
    var lastTs: real
    const classId: int
    /** The camera whose tracker made this track. */
    ghost const owner: string

    constructor (trackId: int, visitorId: int, d: Detection, ts: real, ghost owner: string)
      ensures Value() == NewTrack(trackId, visitorId, d, ts) && this.owner == owner
    {
      this.owner := owner;
      this.trackId, this.visitorId, state, confidence := trackId, visitorId, NEW, d.confidence;
      age, hits, timeSinceUpdate := 1, 1, 0;
      startTs, lastTs, classId := ts, ts, d.classId;
    }

    function Value(): Track
      reads this
    {
      Track(trackId, visitorId, state, confidence, age, hits, timeSinceUpdate, startTs, lastTs, classId)
    }

    method Predict()
      modifies this
      ensures Value() == old(Value()).(age := old(age) + 1)
    {
      age := age + 1;
    }

    method MarkTrackedWith(d: Detection, ts: real)
      modifies this
      ensures Value() == MarkTracked(old(Value()), d, ts)
    {
      state := TRACKED;
      confidence := d.confidence;
      lastTs := ts;
      hits := hits + 1;
      timeSinceUpdate := 0;
    }

    method MarkHitWith(d: Detection, ts: real)
      modifies this
      ensures Value() == MarkHit(old(Value()), d, ts)
    {
      confidence := d.confidence;
      lastTs := ts;
      hits := hits + 1;
      timeSinceUpdate := 0;
    }

    method MarkAsLost()
      modifies this
      ensures Value() == MarkLost(old(Value()))
    {
      state := LOST;
      timeSinceUpdate := timeSinceUpdate + 1;
    }

    method MarkRemoved()
      modifies this
      ensures Value() == old(Value()).(state := REMOVED)
    {
      state := REMOVED;
    }
  }

  function Values(ts: seq<STrack>): (vs: seq<Track>)
    reads ts
    ensures |vs| == |ts|
  {
    seq(|ts|, k requires 0 <= k < |ts| reads ts => ts[k].Value())
  }

  ghost predicate DistinctObjects(ts: seq<STrack>) {
    forall j, k :: 0 <= j < k < |ts| ==> ts[j] != ts[k]
  }

  ghost predicate OwnedBy(ts: seq<STrack>, camera: string) {
    forall t :: t in ts ==> t.owner == camera
  }

  // ----- the loops of update

  /** The tracks in one state. */
  method Select(ts: seq<STrack>, state: TrackState) returns (r: seq<STrack>)
    requires DistinctObjects(ts)
    ensures Values(r) == InState(Values(ts), state) && DistinctObjects(r)
    ensures forall t :: t in r <==> t in ts && t.state == state
  {
    r := [];
    for i := 0 to |ts|
      invariant Values(r) == InState(Values(ts)[..i], state) && DistinctObjects(r)
      invariant forall t :: t in r <==> t in ts[..i] && t.state == state
    {
      assert Values(ts)[..i + 1][..i] == Values(ts)[..i];
      assert ts[..i + 1] == ts[..i] + [ts[i]];
      if ts[i].state == state {
        r := r + [ts[i]];
      }
    }
    assert Values(ts)[..|ts|] == Values(ts) && ts[..|ts|] == ts;
  }

  method PredictAll(ts: seq<STrack>)
    requires DistinctObjects(ts)
    modifies ts
    ensures forall k :: 0 <= k < |ts| ==> ts[k].Value() == old(ts[k].Value()).(age := old(ts[k].age) + 1)
  {
    for i := 0 to |ts|
      invariant forall k :: 0 <= k < |ts| ==>
                  ts[k].Value() == if k < i then old(ts[k].Value()).(age := old(ts[k].age) + 1) else old(ts[k].Value())
    {
      ts[i].Predict();
    }
  }

  /** What a row is matched with. */
  function DetectionOf(matches: seq<Pair>, detections: seq<Detection>, r: nat): Option<Detection>
    requires forall k :: 0 <= k < |matches| ==> matches[k].1 < |detections|
  {
    if matches == [] then None
    else
      var last := matches[|matches| - 1];
      if last.0 == r then Some(detections[last.1]) else DetectionOf(matches[..|matches| - 1], detections, r)
  }

  lemma {:induction false} DetectionOfRow(matches: seq<Pair>, detections: seq<Detection>, r: nat)
    requires forall k :: 0 <= k < |matches| ==> matches[k].1 < |detections|
    ensures DetectionOf(matches, detections, r).Some? <==> r in Rows(matches)
  {
    if matches != [] {
      var init, last := matches[..|matches| - 1], matches[|matches| - 1];
      DetectionOfRow(init, detections, r);
      RowsSnoc(init, last);
      assert matches == init + [last];
    }
  }

  lemma {:induction false} DetectionOfIsGiven(tracks: seq<Track>, matches: seq<Pair>, detections: seq<Detection>,
                                              r: nat)
    requires Distinct(tracks) && InRange(matches, |tracks|, |detections|) && r < |tracks|
    ensures DetectionOf(matches, detections, r) == Look(Given(tracks, matches, detections), tracks[r].trackId)
  {
    if matches != [] {
      var last := matches[|matches| - 1].0;
      DetectionOfIsGiven(tracks, matches[..|matches| - 1], detections, r);
      assert last < r || r < last || last == r;
    }
  }

  /** The objects still stand for the tracks they stood for in the last frame,
      as far as events tell them apart. */
  ghost predicate Stand(ts: seq<STrack>, tracks: seq<Track>)
    reads ts
  {
    && |ts| == |tracks|
    && forall k :: 0 <= k < |ts| ==>
         ts[k].trackId == tracks[k].trackId && ts[k].visitorId == tracks[k].visitorId
         && ts[k].startTs == tracks[k].startTs
  }

  lemma NoMatches(tracks: seq<Track>, detections: seq<Detection>, camera: string, time: real)
    ensures Reacquired(tracks, [], camera, time) == []
    ensures forall r: nat :: DetectionOf([], detections, r) == None
  {}

  lemma ReacquiredTurn(tracks: seq<Track>, matches: seq<Pair>, i: nat, camera: string, time: real)
    requires i < |matches| && forall k :: 0 <= k < |matches| ==> matches[k].0 < |tracks|
    ensures var t := tracks[matches[i].0];
            Reacquired(tracks, matches[..i + 1], camera, time) ==
            Reacquired(tracks, matches[..i], camera, time) +
            if t.state == LOST then [EventOf(REACQUIRED, t, camera, time)] else []
  {
    assert matches[..i + 1][..i] == matches[..i];
  }

  lemma DetectionTurn(matches: seq<Pair>, detections: seq<Detection>, rows: nat, i: nat)
    requires i < |matches| && IsAssignment(matches, rows, |detections|)
    ensures DetectionOf(matches[..i], detections, matches[i].0) == None
    ensures forall r: nat :: DetectionOf(matches[..i + 1], detections, r) ==
              if r == matches[i].0 then Some(detections[matches[i].1]) else DetectionOf(matches[..i], detections, r)
  {
    assert matches[..i + 1][..i] == matches[..i];
    DetectionOfRow(matches[..i], detections, matches[i].0);
  }

  /** The loop over the matches of stage 1. */
  method Stage1(ts: seq<STrack>, detections: seq<Detection>, matches: seq<Pair>, time: real, camera: string,
                ghost tracks: seq<Track>)
    returns (events: seq<Event>)
    requires DistinctObjects(ts) && IsAssignment(matches, |ts|, |detections|)
    requires Stand(ts, tracks) && forall k :: 0 <= k < |ts| ==> ts[k].state == tracks[k].state
    modifies ts
    ensures forall k :: 0 <= k < |ts| ==>
              ts[k].Value() == Matched1(old(ts[k].Value()), DetectionOf(matches, detections, k), time)
    ensures events == Reacquired(tracks, matches, camera, time)
  {
    hide Reacquired, DetectionOf;
    events := [];
    NoMatches(tracks, detections, camera, time);
    for i := 0 to |matches|
      invariant forall k :: 0 <= k < |ts| ==>
                  ts[k].Value() == Matched1(old(ts[k].Value()), DetectionOf(matches[..i], detections, k), time)
      invariant events == Reacquired(tracks, matches[..i], camera, time)
    {
      var (r, c) := matches[i];
      ReacquiredTurn(tracks, matches, i, camera, time);
      DetectionTurn(matches, detections, |ts|, i);
      var t := ts[r];
      var wasLost := t.state == LOST;
      if t.state == NEW {
        t.MarkHitWith(detections[c], time);
      } else {
        t.MarkTrackedWith(detections[c], time);
      }
      if wasLost {
        events := events + [EventOf(REACQUIRED, t.Value(), camera, time)];
      }
    }
    assert matches[..|matches|] == matches;
  }

  /** The loop over the matches of stage 2, all of tracks that were lost. */
  method Stage2(ts: seq<STrack>, detections: seq<Detection>, matches: seq<Pair>, time: real, camera: string,
                ghost tracks: seq<Track>)
    returns (events: seq<Event>)
    requires DistinctObjects(ts) && IsAssignment(matches, |ts|, |detections|)
    requires Stand(ts, tracks) && forall k :: 0 <= k < |ts| ==> tracks[k].state == LOST
    modifies ts
    ensures forall k :: 0 <= k < |ts| ==>
              ts[k].Value() == Matched2(old(ts[k].Value()), DetectionOf(matches, detections, k), time)
    ensures events == Reacquired(tracks, matches, camera, time)
  {
    hide Reacquired, DetectionOf;
    events := [];
    NoMatches(tracks, detections, camera, time);
    for i := 0 to |matches|
      invariant forall k :: 0 <= k < |ts| ==>
                  ts[k].Value() == Matched2(old(ts[k].Value()), DetectionOf(matches[..i], detections, k), time)
      invariant events == Reacquired(tracks, matches[..i], camera, time)
    {
      var (r, c) := matches[i];
      ReacquiredTurn(tracks, matches, i, camera, time);
      DetectionTurn(matches, detections, |ts|, i);
      ts[r].MarkTrackedWith(detections[c], time);
      events := events + [EventOf(REACQUIRED, ts[r].Value(), camera, time)];
    }
    assert matches[..|matches|] == matches;
  }

  /** Marks every track lost whose row is not matched. */
  method MarkUnmatched(ts: seq<STrack>, matches: seq<Pair>)
    requires DistinctObjects(ts)
    modifies ts
    ensures forall k :: 0 <= k < |ts| ==>
              ts[k].Value() == if k in Rows(matches) then old(ts[k].Value()) else MarkLost(old(ts[k].Value()))
  {
    var matched := set k | 0 <= k < |matches| :: matches[k].0;
    assert matched == Rows(matches);
    for i := 0 to |ts|
      invariant forall k :: 0 <= k < |ts| ==>
                  ts[k].Value() == if k < i && k !in matched then MarkLost(old(ts[k].Value())) else old(ts[k].Value())
    {
      if i !in matched {
        ts[i].MarkAsLost();
      }
    }
  }

  method CreateTracks(cols: seq<nat>, high: seq<Detection>, time: real, nextTid: int, idGen: VisitorIDGenerator,
                      ghost camera: string)
    returns (created: seq<STrack>)
    requires forall k :: 0 <= k < |cols| ==> cols[k] < |high|
    modifies idGen
    ensures Values(created) == NewTracks(nextTid, old(idGen.counter) + 1, cols, high, time)
    ensures idGen.counter == old(idGen.counter) + |cols|
    ensures DistinctObjects(created) && OwnedBy(created, camera) && forall t :: t in created ==> fresh(t)
  {
    created := [];
    for i := 0 to |cols|
      invariant |created| == i && DistinctObjects(created) && OwnedBy(created, camera)
      invariant forall t :: t in created ==> fresh(t)
      invariant idGen.counter == old(idGen.counter) + i
      invariant forall k :: 0 <= k < i ==>
                  created[k].Value() == NewTrack(nextTid + k, old(idGen.counter) + 1 + k, high[cols[k]], time)
    {
      var vid := idGen.NextId();
      var t := new STrack(nextTid + i, vid, high[cols[i]], time, camera);
      created := created + [t];
    }
  }

  /** The promotion loop. */
  method Promote(ts: seq<STrack>, p: Params, time: real, camera: string) returns (events: seq<Event>)
    requires DistinctObjects(ts)
    modifies ts
    ensures Values(ts) == PromoteAll(old(Values(ts)), p)
    ensures events == Entered(old(Values(ts)), p, camera, time)
  {
    events := [];
    ghost var before := Values(ts);
    for i := 0 to |ts|
      invariant forall k :: 0 <= k < |ts| ==> ts[k].Value() == if k < i then Promoted(before[k], p) else before[k]
      invariant events == Entered(before[..i], p, camera, time)
    {
      assert before[..i + 1][..i] == before[..i];
      if ts[i].state == NEW && ts[i].hits >= p.minHits {
        ts[i].state := TRACKED;
        events := events + [EventOf(ENTER, ts[i].Value(), camera, time)];
      }
    }
    assert before[..|ts|] == before;
  }

  /** The expiry loop. */
  method Expire(ts: seq<STrack>, p: Params, time: real, camera: string) returns (events: seq<Event>)
    requires DistinctObjects(ts)
    modifies ts
    ensures events == Exited(old(Values(ts)), p, camera, time)
    ensures forall k :: 0 <= k < |ts| ==>
              ts[k].Value() == if Expires(old(ts[k].Value()), p) then old(ts[k].Value()).(state := REMOVED)
                               else old(ts[k].Value())
  {
    events := [];
    ghost var before := Values(ts);
    for i := 0 to |ts|
      invariant forall k :: 0 <= k < |ts| ==>
                  ts[k].Value() == if k < i && Expires(before[k], p) then before[k].(state := REMOVED) else before[k]
      invariant events == Exited(before[..i], p, camera, time)
    {
      assert before[..i + 1][..i] == before[..i];
      if ts[i].state == LOST && ts[i].timeSinceUpdate > p.maxLost {
        ts[i].MarkRemoved();
        events := events + [EventOf(EXIT, ts[i].Value(), camera, time)];
      }
    }
    assert before[..|ts|] == before;
  }

  /** The filter that drops what the expiry loop removed. */
  method DropRemoved(ts: seq<STrack>, p: Params, ghost before: seq<Track>) returns (kept: seq<STrack>)
    requires DistinctObjects(ts) && |before| == |ts|
    requires forall k :: 0 <= k < |ts| ==>
               && before[k].state != REMOVED
               && ts[k].Value() == if Expires(before[k], p) then before[k].(state := REMOVED) else before[k]
    ensures Values(kept) == Prune(before, p)
    ensures DistinctObjects(kept) && forall t :: t in kept ==> t in ts
  {
    kept := [];
    for i := 0 to |ts|
      invariant Values(kept) == Prune(before[..i], p) && DistinctObjects(kept)
      invariant forall t :: t in kept <==> t in ts[..i] && t.state != REMOVED
    {
      assert before[..i + 1][..i] == before[..i];
      assert ts[..i + 1] == ts[..i] + [ts[i]];
      if ts[i].state != REMOVED {
        kept := kept + [ts[i]];
      }
    }
    assert before[..|ts|] == before;
  }

  /** The lost tracks are the candidates from base on. */
  ghost predicate Suffix(ts: seq<STrack>, lost: seq<STrack>, base: nat) {
    && DistinctObjects(ts) && |ts| == base + |lost|
    && forall j :: 0 <= j < |lost| ==> lost[j] == ts[base + j]
  }

  lemma SuffixIndex(ts: seq<STrack>, lost: seq<STrack>, base: nat)
    requires Suffix(ts, lost, base)
    ensures DistinctObjects(lost)
    ensures forall k :: base <= k < |ts| ==> ts[k] == lost[k - base]
    ensures forall k :: 0 <= k < base ==> ts[k] !in lost
  {}

  /** Stage 2, seen from all the candidates. */
  method Stage2Of(ts: seq<STrack>, lost: seq<STrack>, ghost base: nat, low: seq<Detection>, matches: seq<Pair>,
                  time: real, camera: string, ghost tracks: seq<Track>)
    returns (events: seq<Event>)
    requires Suffix(ts, lost, base) && IsAssignment(matches, |lost|, |low|)
    requires Stand(ts, tracks) && forall k :: base <= k < |ts| ==> tracks[k].state == LOST
    modifies lost
    ensures events == Reacquired(tracks[base..], matches, camera, time)
    ensures forall k :: 0 <= k < |ts| ==>
              ts[k].Value() == if k < base then old(ts[k].Value())
                               else Matched2(old(ts[k].Value()), DetectionOf(matches, low, k - base), time)
  {
    hide Reacquired, DetectionOf, Matched2;
    SuffixIndex(ts, lost, base);
    events := Stage2(lost, low, matches, time, camera, tracks[base..]);
  }

  /** The marking after stage 2, seen from all the candidates. */
  method MarkUnmatchedOf(ts: seq<STrack>, lost: seq<STrack>, ghost base: nat, matches: seq<Pair>)
    requires Suffix(ts, lost, base)
    modifies lost
    ensures forall k :: 0 <= k < |ts| ==>
              ts[k].Value() == if k < base || k - base in Rows(matches) then old(ts[k].Value())
                               else MarkLost(old(ts[k].Value()))
  {
    hide Rows, MarkLost;
    SuffixIndex(ts, lost, base);
    MarkUnmatched(lost, matches);
  }

  /** A candidate after the two matching stages, before any marking as lost. */
  function Staged(t: Track, high: Option<Detection>, low: Option<Detection>, inStage2: bool, time: real): Track {
    var one := Matched1(t.(age := t.age + 1), high, time);
    if inStage2 then Matched2(one, low, time) else one
  }

  /** What candidate k is offered in stage 2. */
  function OfferedLow(matches: seq<Pair>, low: seq<Detection>, base: nat, k: nat): Option<Detection>
    requires forall j :: 0 <= j < |matches| ==> matches[j].1 < |low|
  {
    if k < base then None else DetectionOf(matches, low, k - base)
  }

  /** Prediction and the two matching stages, over the candidates of stage 1,
      of which the ones from base on are the lost ones. */
  method MatchStages(ts: seq<STrack>, lost: seq<STrack>, ghost base: nat, ghost tracks: seq<Track>, camera: string,
                     time: real,
                     high: seq<Detection>, matches1: seq<Pair>, low: seq<Detection>, matches2: seq<Pair>)
    returns (events: seq<Event>)
    requires Suffix(ts, lost, base)
    requires Values(ts) == tracks
    requires forall k :: 0 <= k < |ts| ==> (tracks[k].state == LOST <==> base <= k)
    requires IsAssignment(matches1, |ts|, |high|) && IsAssignment(matches2, |lost|, |low|)
    modifies ts
    ensures events == Reacquired(tracks, matches1, camera, time)
                      + Reacquired(tracks[base..], matches2, camera, time)
    ensures forall k :: 0 <= k < |ts| ==>
              ts[k].Value() == Staged(tracks[k], DetectionOf(matches1, high, k), OfferedLow(matches2, low, base, k),
                  base <= k, time)
  {
    hide Reacquired, DetectionOf, MarkTracked, MarkHit, Matched1, Matched2, IsAssignment;
    assert forall j :: 0 <= j < |ts| ==> ts[j].Value() == tracks[j];
    PredictAll(ts);
    var e1 := Stage1(ts, high, matches1, time, camera, tracks);
    var e2 := Stage2Of(ts, lost, base, low, matches2, time, camera, tracks);
    events := e1 + e2;
  }

  /** The matching stages and the two markings. */
  method MarkTracks(ts: seq<STrack>, lost: seq<STrack>, ghost base: nat, ghost tracks: seq<Track>, camera: string,
                    time: real,
                    high: seq<Detection>, matches1: seq<Pair>, low: seq<Detection>, matches2: seq<Pair>)
    returns (events: seq<Event>)
    requires Suffix(ts, lost, base)
    requires Values(ts) == tracks
    requires forall k :: 0 <= k < |ts| ==> (tracks[k].state == LOST <==> base <= k)
    requires IsAssignment(matches1, |ts|, |high|) && IsAssignment(matches2, |lost|, |low|)
    modifies ts
    ensures events == Reacquired(tracks, matches1, camera, time)
                      + Reacquired(tracks[base..], matches2, camera, time)
    ensures forall k :: 0 <= k < |ts| ==>
              ts[k].Value() == Marked(tracks[k], DetectionOf(matches1, high, k), OfferedLow(matches2, low, base, k),
                  time)
  {
    hide Reacquired, DetectionOf, OfferedLow, Rows, MarkLost, Staged, Marked, IsAssignment;
    events := MatchStages(ts, lost, base, tracks, camera, time, high, matches1, low, matches2);
    ghost var v2 := Values(ts);
    MarkUnmatched(ts, matches1);
    ghost var v3 := Values(ts);
    MarkUnmatchedOf(ts, lost, base, matches2);
    MarkedInSteps(tracks, v2, v3, Values(ts), base, high, matches1, low, matches2, time);
  }

  /** The steps of a frame one after the other, put together. */
  lemma MarkedInSteps(tracks: seq<Track>, v2: seq<Track>, v3: seq<Track>, v4: seq<Track>, base: nat,
                      high: seq<Detection>, matches1: seq<Pair>, low: seq<Detection>, matches2: seq<Pair>, time: real)
    requires |tracks| == |v2| == |v3| == |v4| && base <= |tracks|
    requires forall k :: 0 <= k < |tracks| ==> (tracks[k].state == LOST <==> base <= k)
    requires IsAssignment(matches1, |tracks|, |high|) && IsAssignment(matches2, |tracks| - base, |low|)
    requires forall k :: 0 <= k < |tracks| ==>
               && v2[k] == Staged(tracks[k], DetectionOf(matches1, high, k), OfferedLow(matches2, low, base, k),
                   base <= k, time)
               && v3[k] == (if k in Rows(matches1) then v2[k] else MarkLost(v2[k]))
               && v4[k] == (if k < base || k - base in Rows(matches2) then v3[k] else MarkLost(v3[k]))
    ensures forall k :: 0 <= k < |tracks| ==>
              v4[k] == Marked(tracks[k], DetectionOf(matches1, high, k), OfferedLow(matches2, low, base, k), time)
  {
    hide DetectionOf, Rows, MarkTracked, MarkHit, MarkLost;
    forall k | 0 <= k < |tracks|
      ensures v4[k] == Marked(tracks[k], DetectionOf(matches1, high, k), OfferedLow(matches2, low, base, k), time)
    {
      DetectionOfRow(matches1, high, k);
      if k >= base {
        DetectionOfRow(matches2, low, k - base);
      }
    }
  }

  /** What a candidate is given is what its track is given by id. */
  lemma MarkedSame(tracks: seq<Track>, p: Params, f: Frame, i: nat, k: nat, base: nat)
    requires Ordered(tracks) && AllGood(tracks, p) && Answers(tracks, p, f)
    requires i < |tracks| && k < |Candidates(tracks)| && Candidates(tracks)[k] == tracks[i]
    requires base <= |Candidates(tracks)| && Lost(tracks) == Candidates(tracks)[base..]
    requires tracks[i].state == LOST <==> base <= k
    ensures InRange(Matches1(tracks, p, f), |Candidates(tracks)|, |High(f.detections, p)|)
    ensures InRange(Matches2(tracks, p, f), |Lost(tracks)|, |Low(f.detections, p)|)
    ensures MarkedTracks(tracks, p, f)[i] ==
            Marked(tracks[i], DetectionOf(Matches1(tracks, p, f), High(f.detections, p), k),
              if k < base then None else DetectionOf(Matches2(tracks, p, f), Low(f.detections, p), k - base),
                  f.timestamp)
  {
    hide Candidates, Lost, Matches1, Matches2, High, Low, DetectionOf, Given;
    AnswersKept(tracks, p, f);
    CandidatesExact(tracks, p);
    DetectionOfIsGiven(Candidates(tracks), Matches1(tracks, p, f), High(f.detections, p), k);
    if k >= base {
      DetectionOfIsGiven(Lost(tracks), Matches2(tracks, p, f), Low(f.detections, p), k - base);
    }
  }

  lemma NotRemoved(tracks: seq<Track>, p: Params)
    requires AllGood(tracks, p)
    ensures forall k :: 0 <= k < |tracks| ==> tracks[k].state != REMOVED
  {
    assert forall k :: 0 <= k < |tracks| ==> Good(tracks[k], p);
  }

  lemma DistinctAppend(a: seq<STrack>, b: seq<STrack>)
    requires DistinctObjects(a) && DistinctObjects(b) && forall t :: t in a ==> t !in b
    ensures DistinctObjects(a + b)
  {
    forall j, k | 0 <= j < k < |a + b| ensures (a + b)[j] != (a + b)[k] {
      if j < |a| <= k {
        assert (a + b)[j] in a && (a + b)[k] in b;
      }
    }
  }

  /** `candidates_1` and `lost`. */
  method SelectCandidates(ts: seq<STrack>) returns (candidates: seq<STrack>, lost: seq<STrack>, ghost base: nat)
    requires DistinctObjects(ts) && forall k :: 0 <= k < |ts| ==> ts[k].state != REMOVED
    ensures Values(candidates) == Candidates(Values(ts)) && Values(lost) == Lost(Values(ts))
    ensures Suffix(candidates, lost, base) && Lost(Values(ts)) == Candidates(Values(ts))[base..]
    ensures forall t :: t in ts <==> t in candidates
    ensures forall k :: 0 <= k < |candidates| ==> (candidates[k].state == LOST <==> base <= k)
  {
    hide InState;
    var tracked := Select(ts, TRACKED);
    lost := Select(ts, LOST);
    var new_ := Select(ts, NEW);
    candidates := tracked + new_ + lost;
    base := |tracked| + |new_|;
    DistinctAppend(tracked, new_);
    DistinctAppend(tracked + new_, lost);
    forall k | 0 <= k < |candidates| ensures candidates[k].state == LOST <==> base <= k {
      if k < |tracked| {
        assert candidates[k] in tracked;
      } else if k < base {
        assert candidates[k] in new_;
      } else {
        assert candidates[k] in lost;
      }
    }
    assert Values(candidates) == Values(tracked) + Values(new_) + Values(lost);
  }

  class ByteTracker {
    const camera: string
    const idGen: VisitorIDGenerator
    const params: Params
    var tracks: seq<STrack>
    var nextTid: int
    var frameIdx: int

    constructor (camera: string, idGen: VisitorIDGenerator, params: Params)
      ensures Valid() && Values(tracks) == [] && nextTid == 1
      ensures this.camera == camera && this.idGen == idGen && this.params == params
    {
      this.camera, this.idGen, this.params := camera, idGen, params;
      tracks, nextTid, frameIdx := [], 1, 0;
    }

    ghost predicate Valid()
      reads this, tracks, idGen
    {
      && DistinctObjects(tracks) && OwnedBy(tracks, camera)
      && Invariant(Values(tracks), nextTid, idGen.counter + 1, params)
    }

    /** `reset`: forgets the tracks but not the ids that were given. */
    method Reset()
      requires Valid()
      modifies this
      ensures Valid() && Values(tracks) == [] && nextTid == old(nextTid)
    {
      tracks, frameIdx := [], 0;
    }

    /** Everything in `update` that touches the tracks there already are. */
    method MatchAndMark(f: Frame) returns (events: seq<Event>, unmatched: seq<nat>)
      requires Valid() && Answers(Values(tracks), params, f)
      modifies tracks
      ensures unmatched == Unmatched(old(Values(tracks)), params, f)
      ensures events == MatchEvents(old(Values(tracks)), params, f, camera)
      ensures Values(tracks) == MarkedTracks(old(Values(tracks)), params, f)
    {
      hide Good, High, Low, Given, Rows, Cols, Kept, Reacquired, Lost, Candidates, DetectionOf, Marked, IsAssignment,
          IsMatrix;
      ghost var before := Values(tracks);
      assert forall k :: 0 <= k < |tracks| ==> Good(before[k], params);
      NotRemoved(before, params);
      assert forall k :: 0 <= k < |tracks| ==> tracks[k].state == before[k].state;
      var high := SelectHigh(f.detections);
      var low := SelectLow(f.detections);
      var candidates, lost;
      ghost var base;
      candidates, lost, base := SelectCandidates(tracks);
      var m1, rest1, m2, rest2, unmatchedLow;
      m1, rest1, unmatched := HungarianMatch(f.cost1, |candidates|, |high|, f.pairs1, 1.0 - params.matchThresh);
      m2, rest2, unmatchedLow := HungarianMatch(f.cost2, |lost|, |low|, f.pairs2, 1.0 - params.matchThresh);
      AnswersKept(before, params, f);
      forall j | 0 <= j < |candidates| ensures candidates[j] in tracks {
        assert candidates[j] in candidates;
      }
      events := MarkTracks(candidates, lost, base, Candidates(before), camera, f.timestamp, high, m1, low, m2);
      forall i | 0 <= i < |tracks| ensures tracks[i].Value() == MarkedTracks(before, params, f)[i] {
        assert tracks[i] in candidates;
        var k :| 0 <= k < |candidates| && candidates[k] == tracks[i];
        MarkedSame(before, params, f, i, k, base);
      }
    }

    method SelectHigh(detections: seq<Detection>) returns (high: seq<Detection>)
      ensures high == High(detections, params)
    {
      high := [];
      for i := 0 to |detections|
        invariant high == High(detections[..i], params)
      {
        assert detections[..i + 1][..i] == detections[..i];
        if detections[i].confidence >= params.highThresh {
          high := high + [detections[i]];
        }
      }
      assert detections[..|detections|] == detections;
    }

    method SelectLow(detections: seq<Detection>) returns (low: seq<Detection>)
      ensures low == Low(detections, params)
    {
      low := [];
      for i := 0 to |detections|
        invariant low == Low(detections[..i], params)
      {
        assert detections[..i + 1][..i] == detections[..i];
        if params.lowThresh <= detections[i].confidence < params.highThresh {
          low := low + [detections[i]];
        }
      }
      assert detections[..|detections|] == detections;
    }

    /** The creation loop. */
    method AddNew(unmatched: seq<nat>, high: seq<Detection>, time: real)
      requires DistinctObjects(tracks) && forall k :: 0 <= k < |unmatched| ==> unmatched[k] < |high|
      modifies this`tracks, this`nextTid, idGen
      ensures DistinctObjects(tracks)
      ensures forall t :: t in tracks ==> t in old(tracks) || (fresh(t) && t.owner == camera)
      ensures Values(tracks) == old(Values(tracks))
          + NewTracks(old(nextTid), old(idGen.counter) + 1, unmatched, high, time)
      ensures nextTid == old(nextTid) + |unmatched| && idGen.counter == old(idGen.counter) + |unmatched|
    {
      hide NewTracks;
      var created := CreateTracks(unmatched, high, time, nextTid, idGen, camera);
      DistinctAppend(tracks, created);
      nextTid := nextTid + |unmatched|;
      assert |Values(created)| == |unmatched|;
      assert Values(tracks + created) == Values(tracks) + Values(created);
      tracks := tracks + created;
    }

    /** Promotion, expiry and pruning. */
    method PromoteAndExpire(time: real) returns (events: seq<Event>)
      requires DistinctObjects(tracks) && forall k :: 0 <= k < |tracks| ==> tracks[k].state != REMOVED
      modifies this`tracks, tracks
      ensures DistinctObjects(tracks) && forall t :: t in tracks ==> t in old(tracks)
      ensures Values(tracks) == Prune(PromoteAll(old(Values(tracks)), params), params)
      ensures events == Entered(old(Values(tracks)), params, camera, time)
                        + Exited(PromoteAll(old(Values(tracks)), params), params, camera, time)
    {
      hide Prune, Entered, Exited;
      ghost var v := Values(tracks);
      var entered := Promote(tracks, params, time, camera);
      ghost var promoted := Values(tracks);
      assert forall k :: 0 <= k < |tracks| ==> promoted[k] == Promoted(v[k], params);
      var exited := Expire(tracks, params, time, camera);
      tracks := DropRemoved(tracks, params, promoted);
      events := entered + exited;
    }

    /** The first half of `update`: matching, marking and new tracks. */
    method MatchAndCreate(f: Frame) returns (events: seq<Event>)
      requires Valid() && Answers(Values(tracks), params, f)
      modifies this`tracks, this`nextTid, idGen, tracks
      ensures DistinctObjects(tracks)
      ensures forall t :: t in tracks ==> t in old(tracks) || (fresh(t) && t.owner == camera)
      ensures Values(tracks) == Before(old(Values(tracks)), old(nextTid), old(idGen.counter) + 1, params, f)
      ensures nextTid == old(nextTid) + |Unmatched(old(Values(tracks)), params, f)|
      ensures idGen.counter == old(idGen.counter) + |Unmatched(old(Values(tracks)), params, f)|
      ensures events == MatchEvents(old(Values(tracks)), params, f, camera)
    {
      hide Unmatched, Invariant, High, MarkedTracks, NewTracks, MatchEvents;
      var high := SelectHigh(f.detections);
      var unmatched;
      events, unmatched := MatchAndMark(f);
      AddNew(unmatched, high, f.timestamp);
    }

    /** `update`: one frame. */
    method Update(f: Frame) returns (active: seq<STrack>, events: seq<Event>)
      requires Valid() && Answers(Values(tracks), params, f)
      modifies this, idGen, tracks
      ensures Valid()
      ensures Values(tracks) == After(old(Values(tracks)), old(nextTid), old(idGen.counter) + 1, params, f)
      ensures nextTid == old(nextTid) + |Unmatched(old(Values(tracks)), params, f)|
      ensures idGen.counter == old(idGen.counter) + |Unmatched(old(Values(tracks)), params, f)|
      ensures events == Events(old(Values(tracks)), old(nextTid), old(idGen.counter) + 1, params, f, camera)
      ensures forall t :: t in active <==> t in tracks && (t.state == TRACKED || t.state == NEW)
      ensures forall t :: t in tracks ==> t in old(tracks) || fresh(t)
    {
      hide Unmatched, Invariant, Before, MatchEvents, Entered, Exited, Prune, PromoteAll, Answers;
      ghost var v0, tid, vid := Values(tracks), nextTid, idGen.counter + 1;
      FrameKeepsInvariant(v0, tid, vid, params, f);
      frameIdx := frameIdx + 1;
      var matched := MatchAndCreate(f);
      ghost var before := Values(tracks);
      NoneRemoved(v0, tid, vid, params, f);
      assert forall k :: 0 <= k < |tracks| ==> tracks[k].state == before[k].state;
      forall j | 0 <= j < |tracks| ensures tracks[j] in old(tracks) || fresh(tracks[j]) {
        assert tracks[j] in tracks;
      }
      var ended := PromoteAndExpire(f.timestamp);
      events := matched + ended;
      active := SelectActive();
    }

    method SelectActive() returns (active: seq<STrack>)
      ensures forall t :: t in active <==> t in tracks && (t.state == TRACKED || t.state == NEW)
    {
      active := [];
      for i := 0 to |tracks|
        invariant forall t :: t in active <==> t in tracks[..i] && (t.state == TRACKED || t.state == NEW)
      {
        assert tracks[..i + 1] == tracks[..i] + [tracks[i]];
        if tracks[i].state == TRACKED || tracks[i].state == NEW {
          active := active + [tracks[i]];
        }
      }
      assert tracks[..|tracks|] == tracks;
    }
  }

  lemma NoneRemoved(tracks: seq<Track>, tid: int, vid: int, p: Params, f: Frame)
    requires Invariant(tracks, tid, vid, p) && Answers(tracks, p, f)
    ensures forall k :: 0 <= k < |Before(tracks, tid, vid, p, f)| ==> Before(tracks, tid, vid, p, f)[k].state != REMOVED
  {
    hide Given, Matches1, Matches2, High, Low, Candidates, Lost, Unmatched;
    var before := Before(tracks, tid, vid, p, f);
    forall k | 0 <= k < |before| ensures before[k].state != REMOVED {
      if k < |tracks| {
        assert Good(tracks[k], p);
      }
    }
  }
}
