/** One frame of a `ByteTracker` on values: what happens to each track, which
    tracks are new, and the events in the order they are emitted. */
module Tracking {
  import opened Options
  import opened Matching

  datatype TrackState = NEW | TRACKED | LOST | REMOVED

  datatype EventKind = ENTER | EXIT | REACQUIRED

  /** A detection; its box reaches the tracker only through the costs. */
  datatype Detection = Detection(confidence: real, classId: int)

  /** The fields of an `STrack` other than its Kalman state. */
  datatype Track = Track(
    trackId: int, visitorId: int, state: TrackState, confidence: real,
    age: int, hits: int, timeSinceUpdate: int, startTs: real, lastTs: real, classId: int)

  datatype Event = Event(
    kind: EventKind, visitorId: int, trackId: int, camera: string, timestamp: real, dwellSeconds: real)

  datatype Params = Params(highThresh: real, lowThresh: real, matchThresh: real, maxLost: int, minHits: int)

  /** One call of `update`: the detections and time, and what the cost matrix
      and the solver say in the two matching stages. */
  datatype Frame = Frame(
    detections: seq<Detection>, timestamp: real,
    cost1: seq<seq<real>>, pairs1: seq<Pair>, cost2: seq<seq<real>>, pairs2: seq<Pair>)

  // ----- splitting the inputs

  function High(detections: seq<Detection>, p: Params): seq<Detection> {
    if detections == [] then []
    else
      var last := detections[|detections| - 1];
      High(detections[..|detections| - 1], p) + if last.confidence >= p.highThresh then [last] else []
  }

  function Low(detections: seq<Detection>, p: Params): seq<Detection> {
    if detections == [] then []
    else
      var last := detections[|detections| - 1];
      Low(detections[..|detections| - 1], p) +
      if p.lowThresh <= last.confidence < p.highThresh then [last] else []
  }

  function InState(tracks: seq<Track>, state: TrackState): seq<Track> {
    if tracks == [] then []
    else
      var last := tracks[|tracks| - 1];
      InState(tracks[..|tracks| - 1], state) + if last.state == state then [last] else []
  }

  /** `candidates_1`: all the tracks, by state. */
  function Candidates(tracks: seq<Track>): seq<Track> {
    InState(tracks, TRACKED) + InState(tracks, NEW) + InState(tracks, LOST)
  }

  function Lost(tracks: seq<Track>): seq<Track> {
    InState(tracks, LOST)
  }

  /** The cost matrices and the solver's answers fit the two stages. */
  ghost predicate Answers(tracks: seq<Track>, p: Params, f: Frame) {
    var high, low := |High(f.detections, p)|, |Low(f.detections, p)|;
    && IsMatrix(f.cost1, |Candidates(tracks)|, high) && IsAssignment(f.pairs1, |Candidates(tracks)|, high)
    && IsMatrix(f.cost2, |Lost(tracks)|, low) && IsAssignment(f.pairs2, |Lost(tracks)|, low)
  }

  function Matches1(tracks: seq<Track>, p: Params, f: Frame): seq<Pair>
    requires Answers(tracks, p, f)
  {
    Kept(f.cost1, f.pairs1, 1.0 - p.matchThresh)
  }

  function Matches2(tracks: seq<Track>, p: Params, f: Frame): seq<Pair>
    requires Answers(tracks, p, f)
  {
    Kept(f.cost2, f.pairs2, 1.0 - p.matchThresh)
  }

  /** The detection each matched track (by its id) is given. */
  function Given(tracks: seq<Track>, matches: seq<Pair>, detections: seq<Detection>): map<int, Detection>
    requires forall k :: 0 <= k < |matches| ==> matches[k].0 < |tracks| && matches[k].1 < |detections|
  {
    if matches == [] then map[]
    else
      var last := matches[|matches| - 1];
      Given(tracks, matches[..|matches| - 1], detections)[tracks[last.0].trackId := detections[last.1]]
  }

  // ----- one track in one frame

  function MarkTracked(t: Track, d: Detection, ts: real): Track {
    t.(state := TRACKED, confidence := d.confidence, lastTs := ts, hits := t.hits + 1, timeSinceUpdate := 0)
  }

  function MarkHit(t: Track, d: Detection, ts: real): Track {
    t.(confidence := d.confidence, lastTs := ts, hits := t.hits + 1, timeSinceUpdate := 0)
  }

  function MarkLost(t: Track): Track {
    t.(state := LOST, timeSinceUpdate := t.timeSinceUpdate + 1)
  }

  function Look<T>(m: map<int, T>, id: int): Option<T> {
    if id in m then Some(m[id]) else None
  }

  function Matched1(t: Track, high: Option<Detection>, ts: real): Track {
    match high
    case None => t
    case Some(d) => if t.state == NEW then MarkHit(t, d, ts) else MarkTracked(t, d, ts)
  }

  function Matched2(t: Track, low: Option<Detection>, ts: real): Track {
    match low
    case None => t
    case Some(d) => MarkTracked(t, d, ts)
  }

  /** Prediction, both matching stages and both markings of unmatched tracks.
      A track that was lost takes part in both stages, and is marked lost once
      for each stage that did not match it. */
  function Marked(t: Track, high: Option<Detection>, low: Option<Detection>, ts: real): Track {
    var wasLost := t.state == LOST;
    var t1 := Matched1(t.(age := t.age + 1), high, ts);
    var t2 := if wasLost then Matched2(t1, low, ts) else t1;
    var t3 := if high.None? then MarkLost(t2) else t2;
    if wasLost && low.None? then MarkLost(t3) else t3
  }

  predicate Promotes(t: Track, p: Params) {
    t.state == NEW && t.hits >= p.minHits
  }

  function Promoted(t: Track, p: Params): Track {
    if Promotes(t, p) then t.(state := TRACKED) else t
  }

  predicate Expires(t: Track, p: Params) {
    t.state == LOST && t.timeSinceUpdate > p.maxLost
  }

  function NewTrack(tid: int, vid: int, d: Detection, ts: real): Track {
    Track(tid, vid, NEW, d.confidence, 1, 1, 0, ts, ts, d.classId)
  }

  // ----- the whole frame

  function MarkAll(tracks: seq<Track>, high: map<int, Detection>, low: map<int, Detection>, ts: real): (r: seq<Track>)
    ensures |r| == |tracks|
  {
    seq(|tracks|, k requires 0 <= k < |tracks| =>
      Marked(tracks[k], Look(high, tracks[k].trackId), Look(low, tracks[k].trackId), ts))
  }

  /** One new track for each unmatched high-confidence detection. */
  function NewTracks(tid: int, vid: int, cols: seq<nat>, high: seq<Detection>, ts: real): (r: seq<Track>)
    requires forall k :: 0 <= k < |cols| ==> cols[k] < |high|
    ensures |r| == |cols|
  {
    seq(|cols|, k requires 0 <= k < |cols| => NewTrack(tid + k, vid + k, high[cols[k]], ts))
  }

  function PromoteAll(tracks: seq<Track>, p: Params): (r: seq<Track>)
    ensures |r| == |tracks|
  {
    seq(|tracks|, k requires 0 <= k < |tracks| => Promoted(tracks[k], p))
  }

  function Prune(tracks: seq<Track>, p: Params): seq<Track> {
    if tracks == [] then []
    else
      var last := tracks[|tracks| - 1];
      Prune(tracks[..|tracks| - 1], p) + if Expires(last, p) then [] else [last]
  }

  function EventOf(kind: EventKind, t: Track, camera: string, ts: real): Event {
    Event(kind, t.visitorId, t.trackId, camera, ts, if kind == EXIT then ts - t.startTs else 0.0)
  }

  /** A lost track that is matched is reacquired. */
  function Reacquired(tracks: seq<Track>, matches: seq<Pair>, camera: string, ts: real): seq<Event>
    requires forall k :: 0 <= k < |matches| ==> matches[k].0 < |tracks|
  {
    if matches == [] then []
    else
      var t := tracks[matches[|matches| - 1].0];
      Reacquired(tracks, matches[..|matches| - 1], camera, ts) +
      if t.state == LOST then [EventOf(REACQUIRED, t, camera, ts)] else []
  }

  function Entered(tracks: seq<Track>, p: Params, camera: string, ts: real): seq<Event> {
    if tracks == [] then []
    else
      var t := tracks[|tracks| - 1];
      Entered(tracks[..|tracks| - 1], p, camera, ts) + if Promotes(t, p) then [EventOf(ENTER, t, camera, ts)] else []
  }

  function Exited(tracks: seq<Track>, p: Params, camera: string, ts: real): seq<Event> {
    if tracks == [] then []
    else
      var t := tracks[|tracks| - 1];
      Exited(tracks[..|tracks| - 1], p, camera, ts) + if Expires(t, p) then [EventOf(EXIT, t, camera, ts)] else []
  }

  /** The high-confidence detections no track was matched with. */
  function Unmatched(tracks: seq<Track>, p: Params, f: Frame): (cols: seq<nat>)
    requires Answers(tracks, p, f)
    ensures forall k :: 0 <= k < |cols| ==> cols[k] < |High(f.detections, p)|
  {
    var n, used := |High(f.detections, p)|, Cols(Matches1(tracks, p, f));
    MissingExact(n, used);
    Missing(n, used)
  }

  /** The old tracks after both matching stages and both markings. */
  function MarkedTracks(tracks: seq<Track>, p: Params, f: Frame): (r: seq<Track>)
    requires Answers(tracks, p, f)
    ensures |r| == |tracks|
  {
    AnswersKept(tracks, p, f);
    MarkAll(tracks, Given(Candidates(tracks), Matches1(tracks, p, f), High(f.detections, p)),
      Given(Lost(tracks), Matches2(tracks, p, f), Low(f.detections, p)), f.timestamp)
  }

  /** The events of both matching stages. */
  function MatchEvents(tracks: seq<Track>, p: Params, f: Frame, camera: string): seq<Event>
    requires Answers(tracks, p, f)
  {
    AnswersKept(tracks, p, f);
    Reacquired(Candidates(tracks), Matches1(tracks, p, f), camera, f.timestamp)
    + Reacquired(Lost(tracks), Matches2(tracks, p, f), camera, f.timestamp)
  }

  /** All tracks, old and new, before promotion; and the events of a frame. */
  function Before(tracks: seq<Track>, tid: int, vid: int, p: Params, f: Frame): seq<Track>
    requires Answers(tracks, p, f)
  {
    MarkedTracks(tracks, p, f) + NewTracks(tid, vid, Unmatched(tracks, p, f), High(f.detections, p), f.timestamp)
  }

  function After(tracks: seq<Track>, tid: int, vid: int, p: Params, f: Frame): seq<Track>
    requires Answers(tracks, p, f)
  {
    Prune(PromoteAll(Before(tracks, tid, vid, p, f), p), p)
  }

  function Events(tracks: seq<Track>, tid: int, vid: int, p: Params, f: Frame, camera: string): seq<Event>
    requires Answers(tracks, p, f)
  {
    var before := Before(tracks, tid, vid, p, f);
    MatchEvents(tracks, p, f, camera)
    + Entered(before, p, camera, f.timestamp)
    + Exited(PromoteAll(before, p), p, camera, f.timestamp)
  }

  lemma AnswersKept(tracks: seq<Track>, p: Params, f: Frame)
    requires Answers(tracks, p, f)
    ensures IsAssignment(Matches1(tracks, p, f), |Candidates(tracks)|, |High(f.detections, p)|)
    ensures IsAssignment(Matches2(tracks, p, f), |Lost(tracks)|, |Low(f.detections, p)|)
  {
    KeptIsAssignment(f.cost1, f.pairs1, 1.0 - p.matchThresh, |Candidates(tracks)|, |High(f.detections, p)|);
    KeptIsAssignment(f.cost2, f.pairs2, 1.0 - p.matchThresh, |Lost(tracks)|, |Low(f.detections, p)|);
  }
}
