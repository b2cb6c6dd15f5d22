/** One frame of a tracker: its invariant, the conservation of tracks and
    detections, and which events each visitor gets. */
module TrackFrames {
  import opened Options
  import opened Matching
  import opened Tracking
  import opened TrackLife

  // ----- the invariant

  /** Both kinds of id ascend strictly along the list. */
  ghost predicate Ordered(tracks: seq<Track>) {
    forall j, k :: 0 <= j < k < |tracks| ==>
                     tracks[j].trackId < tracks[k].trackId && tracks[j].visitorId < tracks[k].visitorId
  }

  ghost predicate AllGood(tracks: seq<Track>, p: Params) {
    forall k :: 0 <= k < |tracks| ==> Good(tracks[k], p)
  }

  /** Ids are below the next ones to be given. */
  ghost predicate Issued(tracks: seq<Track>, tid: int, vid: int) {
    forall k :: 0 <= k < |tracks| ==> tracks[k].trackId < tid && tracks[k].visitorId < vid
  }

  ghost predicate Invariant(tracks: seq<Track>, tid: int, vid: int, p: Params) {
    Ordered(tracks) && AllGood(tracks, p) && Issued(tracks, tid, vid)
  }

  /** What the k-th track is given in a frame. */
  function HighOf(tracks: seq<Track>, p: Params, f: Frame, id: int): Option<Detection>
    requires Answers(tracks, p, f)
  {
    AnswersKept(tracks, p, f);
    Look(Given(Candidates(tracks), Matches1(tracks, p, f), High(f.detections, p)), id)
  }

  function LowOf(tracks: seq<Track>, p: Params, f: Frame, id: int): Option<Detection>
    requires Answers(tracks, p, f)
  {
    AnswersKept(tracks, p, f);
    Look(Given(Lost(tracks), Matches2(tracks, p, f), Low(f.detections, p)), id)
  }

  /** The successors of the old tracks, then the new tracks. */
  lemma AllSteps(tracks: seq<Track>, tid: int, vid: int, p: Params, f: Frame)
    requires Answers(tracks, p, f)
    ensures var all := PromoteAll(Before(tracks, tid, vid, p, f), p);
            && |all| == |tracks| + |Unmatched(tracks, p, f)|
            && (forall k :: 0 <= k < |tracks| ==>
                  var t := tracks[k];
                  all[k] == Step(t, HighOf(tracks, p, f, t.trackId), LowOf(tracks, p, f, t.trackId), p, f.timestamp))
            && (forall k :: |tracks| <= k < |all| ==>
                  var j := k - |tracks|;
                  all[k] == Promoted(NewTrack(tid + j, vid + j,
                    High(f.detections, p)[Unmatched(tracks, p, f)[j]], f.timestamp), p))
  {
    hide Given, Marked, Unmatched, Matches1, Matches2, High, Low, Candidates, Lost;
  }

  lemma {:induction false} PruneKeeps(tracks: seq<Track>, p: Params)
    requires Ordered(tracks)
    ensures Ordered(Prune(tracks, p))
    ensures forall t :: t in Prune(tracks, p) <==> t in tracks && !Expires(t, p)
  {
    if tracks != [] {
      var init, last := tracks[..|tracks| - 1], tracks[|tracks| - 1];
      PruneKeeps(init, p);
      assert tracks == init + [last];
      var kept := Prune(init, p);
      forall k | 0 <= k < |kept| ensures kept[k].trackId < last.trackId && kept[k].visitorId < last.visitorId {
        assert kept[k] in init;
      }
    }
  }

  /** Every frame keeps the invariant; what is left are exactly the successors
      of the old tracks and the new tracks that did not expire. */
  lemma FrameKeepsInvariant(tracks: seq<Track>, tid: int, vid: int, p: Params, f: Frame)
    requires Invariant(tracks, tid, vid, p) && Answers(tracks, p, f)
    ensures var n := |Unmatched(tracks, p, f)|;
            Invariant(After(tracks, tid, vid, p, f), tid + n, vid + n, p)
    ensures forall t :: t in After(tracks, tid, vid, p, f) <==>
                        t in PromoteAll(Before(tracks, tid, vid, p, f), p) && !Expires(t, p)
  {
    hide HighOf, LowOf, Unmatched, Before, Prune;
    var all, n := PromoteAll(Before(tracks, tid, vid, p, f), p), |Unmatched(tracks, p, f)|;
    AllSteps(tracks, tid, vid, p, f);
    forall k | 0 <= k < |all|
      ensures all[k].trackId == (if k < |tracks| then tracks[k].trackId else tid + k - |tracks|)
      ensures all[k].visitorId == (if k < |tracks| then tracks[k].visitorId else vid + k - |tracks|)
      ensures Expires(all[k], p) || Good(all[k], p)
    {
      TrackIn(tracks, tid, vid, p, f, k);
    }
    assert Ordered(all) && Issued(all, tid + n, vid + n);
    PruneKeeps(all, p);
    var after := Prune(all, p);
    forall k | 0 <= k < |after|
      ensures Good(after[k], p) && after[k].trackId < tid + n && after[k].visitorId < vid + n
    {
      assert after[k] in after;
      var j :| 0 <= j < |all| && all[j] == after[k];
    }
  }

  /** Where a track of the new list comes from. */
  lemma TrackIn(tracks: seq<Track>, tid: int, vid: int, p: Params, f: Frame, k: nat)
    requires AllGood(tracks, p) && Answers(tracks, p, f)
    requires k < |tracks| + |Unmatched(tracks, p, f)|
    ensures var all := PromoteAll(Before(tracks, tid, vid, p, f), p);
            && |all| == |tracks| + |Unmatched(tracks, p, f)|
            && all[k].trackId == (if k < |tracks| then tracks[k].trackId else tid + k - |tracks|)
            && all[k].visitorId == (if k < |tracks| then tracks[k].visitorId else vid + k - |tracks|)
            && (Expires(all[k], p) || Good(all[k], p))
  {
    hide HighOf, LowOf, Unmatched, Before;
    AllSteps(tracks, tid, vid, p, f);
    if k < |tracks| {
      var t := tracks[k];
      StepByCase(t, HighOf(tracks, p, f, t.trackId), LowOf(tracks, p, f, t.trackId), p, f.timestamp);
    }
  }

  // ----- conservation

  function Count(events: seq<Event>, kind: EventKind): nat {
    if events == [] then 0
    else Count(events[..|events| - 1], kind) + if events[|events| - 1].kind == kind then 1 else 0
  }

  lemma {:induction false} CountSplit(a: seq<Event>, b: seq<Event>, kind: EventKind)
    ensures Count(a + b, kind) == Count(a, kind) + Count(b, kind)
  {
    if b == [] {
      assert a + b == a;
    } else {
      assert (a + b)[..|a + b| - 1] == a + b[..|b| - 1];
      CountSplit(a, b[..|b| - 1], kind);
    }
  }

  lemma {:induction false} NoExits(tracks: seq<Track>, matches: seq<Pair>, p: Params, camera: string, ts: real)
    requires forall k :: 0 <= k < |matches| ==> matches[k].0 < |tracks|
    ensures Count(Reacquired(tracks, matches, camera, ts), EXIT) == 0
  {
    if matches != [] {
      var t := tracks[matches[|matches| - 1].0];
      NoExits(tracks, matches[..|matches| - 1], p, camera, ts);
      CountSplit(Reacquired(tracks, matches[..|matches| - 1], camera, ts),
                 if t.state == LOST then [EventOf(REACQUIRED, t, camera, ts)] else [], EXIT);
    }
  }

  lemma {:induction false} ExitCounts(tracks: seq<Track>, p: Params, camera: string, ts: real)
    ensures Count(Entered(tracks, p, camera, ts), EXIT) == 0
    ensures Count(Exited(tracks, p, camera, ts), EXIT) + |Prune(tracks, p)| == |tracks|
  {
    if tracks != [] {
      var init, t := tracks[..|tracks| - 1], tracks[|tracks| - 1];
      ExitCounts(init, p, camera, ts);
      CountSplit(Entered(init, p, camera, ts), if Promotes(t, p) then [EventOf(ENTER, t, camera, ts)] else [], EXIT);
      CountSplit(Exited(init, p, camera, ts), if Expires(t, p) then [EventOf(EXIT, t, camera, ts)] else [], EXIT);
    }
  }

  /** No track appears or disappears but by an unmatched high-confidence
      detection or an EXIT event. */
  lemma TracksConserved(tracks: seq<Track>, tid: int, vid: int, p: Params, f: Frame, camera: string)
    requires Answers(tracks, p, f)
    ensures |After(tracks, tid, vid, p, f)| + Count(Events(tracks, tid, vid, p, f, camera), EXIT) ==
            |tracks| + |Unmatched(tracks, p, f)|
  {
    hide Before, Unmatched;
    var before := Before(tracks, tid, vid, p, f);
    AnswersKept(tracks, p, f);
    var r1 := Reacquired(Candidates(tracks), Matches1(tracks, p, f), camera, f.timestamp);
    var r2 := Reacquired(Lost(tracks), Matches2(tracks, p, f), camera, f.timestamp);
    var e, x := Entered(before, p, camera, f.timestamp), Exited(PromoteAll(before, p), p, camera, f.timestamp);
    NoExits(Candidates(tracks), Matches1(tracks, p, f), p, camera, f.timestamp);
    NoExits(Lost(tracks), Matches2(tracks, p, f), p, camera, f.timestamp);
    ExitCounts(before, p, camera, f.timestamp);
    ExitCounts(PromoteAll(before, p), p, camera, f.timestamp);
    CountSplit(r1 + r2 + e, x, EXIT);
    CountSplit(r1 + r2, e, EXIT);
    CountSplit(r1, r2, EXIT);
    AllSteps(tracks, tid, vid, p, f);
  }

  // ----- who is matched with what

  lemma {:induction false} InStateExact(tracks: seq<Track>, state: TrackState)
    requires Ordered(tracks)
    ensures Ordered(InState(tracks, state))
    ensures forall t :: t in InState(tracks, state) <==> t in tracks && t.state == state
  {
    if tracks != [] {
      var init, last := tracks[..|tracks| - 1], tracks[|tracks| - 1];
      InStateExact(init, state);
      assert tracks == init + [last];
      var kept := InState(init, state);
      forall k | 0 <= k < |kept| ensures kept[k].trackId < last.trackId && kept[k].visitorId < last.visitorId {
        assert kept[k] in init;
      }
    }
  }

  ghost predicate Distinct(tracks: seq<Track>) {
    forall j, k :: 0 <= j < k < |tracks| ==>
                     tracks[j].trackId != tracks[k].trackId && tracks[j].visitorId != tracks[k].visitorId
  }

  lemma SameTrack(tracks: seq<Track>, a: Track, b: Track)
    requires Ordered(tracks) && a in tracks && b in tracks
    ensures a.trackId == b.trackId <==> a == b
    ensures a.visitorId == b.visitorId <==> a == b
  {
    var i :| 0 <= i < |tracks| && tracks[i] == a;
    var j :| 0 <= j < |tracks| && tracks[j] == b;
  }

  lemma DistinctConcat(tracks: seq<Track>, a: seq<Track>, b: seq<Track>)
    requires Ordered(tracks) && Distinct(a) && Distinct(b)
    requires forall t :: t in a + b ==> t in tracks
    requires forall t :: t in a ==> t !in b
    ensures Distinct(a + b)
  {
    var all := a + b;
    forall j, k | 0 <= j < k < |all|
      ensures all[j].trackId != all[k].trackId && all[j].visitorId != all[k].visitorId
    {
      if j < |a| <= k {
        assert all[j] in a && all[k] in b;
        assert all[j] in a + b && all[k] in a + b;
        SameTrack(tracks, all[j], all[k]);
      }
    }
  }

  /** Stage 1 sees every track once, and stage 2 every lost track once. */
  lemma CandidatesExact(tracks: seq<Track>, p: Params)
    requires Ordered(tracks) && AllGood(tracks, p)
    ensures Distinct(Candidates(tracks)) && Distinct(Lost(tracks))
    ensures forall t :: t in Candidates(tracks) <==> t in tracks
    ensures forall t :: t in Lost(tracks) <==> t in tracks && t.state == LOST
  {
    var a, b, c := InState(tracks, TRACKED), InState(tracks, NEW), InState(tracks, LOST);
    InStateExact(tracks, TRACKED);
    InStateExact(tracks, NEW);
    InStateExact(tracks, LOST);
    DistinctConcat(tracks, a, b);
    DistinctConcat(tracks, a + b, c);
    forall t | t in tracks ensures t in a + b + c {
      var k :| 0 <= k < |tracks| && tracks[k] == t;
      assert Good(tracks[k], p);
    }
  }

  ghost predicate InRange(matches: seq<Pair>, rows: nat, cols: nat) {
    forall k :: 0 <= k < |matches| ==> matches[k].0 < rows && matches[k].1 < cols
  }

  /** Only matched tracks are given anything... */
  lemma {:induction false} GivenOnly(tracks: seq<Track>, matches: seq<Pair>, detections: seq<Detection>,
                                     id: int)
    returns (k: nat)
    requires InRange(matches, |tracks|, |detections|)
    requires id in Given(tracks, matches, detections)
    ensures k < |matches| && tracks[matches[k].0].trackId == id
  {
    var init := matches[..|matches| - 1];
    if id in Given(tracks, init, detections) {
      k := GivenOnly(tracks, init, detections, id);
    } else {
      k := |matches| - 1;
    }
  }

  /** ...and every one of them is given the detection it is matched with. */
  lemma {:induction false} GivenAll(tracks: seq<Track>, matches: seq<Pair>, detections: seq<Detection>, k: nat)
    requires Distinct(tracks) && IsAssignment(matches, |tracks|, |detections|) && k < |matches|
    ensures var id, given := tracks[matches[k].0].trackId, Given(tracks, matches, detections);
            id in given && given[id] == detections[matches[k].1]
  {
    var last := |matches| - 1;
    if k < last {
      GivenAll(tracks, matches[..last], detections, k);
      var i, j := matches[k].0, matches[last].0;
      assert i < j || j < i;
    }
  }

  /** A track is given a detection if and only if its row is matched. */
  lemma GivenIff(tracks: seq<Track>, matches: seq<Pair>, detections: seq<Detection>, i: nat)
    requires Distinct(tracks) && IsAssignment(matches, |tracks|, |detections|) && i < |tracks|
    ensures tracks[i].trackId in Given(tracks, matches, detections) <==> i in Rows(matches)
  {
    var id := tracks[i].trackId;
    if id in Given(tracks, matches, detections) {
      var k := GivenOnly(tracks, matches, detections, id);
      var j := matches[k].0;
      assert !(i < j) && !(j < i);
    }
    if i in Rows(matches) {
      var k :| 0 <= k < |matches| && matches[k].0 == i;
      GivenAll(tracks, matches, detections, k);
    }
  }

  lemma MatchedIsGiven(tracks: seq<Track>, p: Params, f: Frame, k: nat)
    requires Ordered(tracks) && AllGood(tracks, p) && Answers(tracks, p, f) && k < |Matches1(tracks, p, f)|
    ensures IsAssignment(Matches1(tracks, p, f), |Candidates(tracks)|, |High(f.detections, p)|)
    ensures var (r, c) := Matches1(tracks, p, f)[k];
            HighOf(tracks, p, f, Candidates(tracks)[r].trackId) == Some(High(f.detections, p)[c])
  {
    hide Given, Matches1, Matches2, Candidates, Lost, High, Low;
    AnswersKept(tracks, p, f);
    CandidatesExact(tracks, p);
    GivenAll(Candidates(tracks), Matches1(tracks, p, f), High(f.detections, p), k);
  }

  lemma UnmatchedExact(tracks: seq<Track>, p: Params, f: Frame, c: nat)
    requires Answers(tracks, p, f) && c < |High(f.detections, p)|
    ensures c in Cols(Matches1(tracks, p, f)) <==> c !in Unmatched(tracks, p, f)
    ensures var unmatched := Unmatched(tracks, p, f);
            forall j, k :: 0 <= j < k < |unmatched| ==> unmatched[j] < unmatched[k]
  {
    MissingExact(|High(f.detections, p)|, Cols(Matches1(tracks, p, f)));
  }

  /** Every high-confidence detection feeds exactly one track: the one track it
      is matched with, or one new track. */
  lemma DetectionFeedsOne(tracks: seq<Track>, tid: int, vid: int, p: Params, f: Frame, c: nat)
    requires Invariant(tracks, tid, vid, p) && Answers(tracks, p, f) && c < |High(f.detections, p)|
    ensures var matches, unmatched := Matches1(tracks, p, f), Unmatched(tracks, p, f);
            var d := High(f.detections, p)[c];
            && (c in Cols(matches) <==> c !in unmatched)
            && IsAssignment(matches, |Candidates(tracks)|, |High(f.detections, p)|)
            && (forall k :: 0 <= k < |matches| && matches[k].1 == c ==>
                  HighOf(tracks, p, f, Candidates(tracks)[matches[k].0].trackId) == Some(d))
            && (forall j, k :: 0 <= j < k < |unmatched| ==> unmatched[j] < unmatched[k])
            && (forall j :: 0 <= j < |unmatched| && unmatched[j] == c ==>
                  PromoteAll(Before(tracks, tid, vid, p, f), p)[|tracks| + j] ==
                  Promoted(NewTrack(tid + j, vid + j, d, f.timestamp), p))
  {
    hide HighOf, Matches1, Matches2, Candidates, Lost, High, Low, Unmatched, Before, Cols, NewTrack, Promoted;
    AnswersKept(tracks, p, f);
    UnmatchedExact(tracks, p, f, c);
    AllSteps(tracks, tid, vid, p, f);
    var matches := Matches1(tracks, p, f);
    forall k | 0 <= k < |matches| && matches[k].1 == c
      ensures HighOf(tracks, p, f, Candidates(tracks)[matches[k].0].trackId) == Some(High(f.detections, p)[c])
    {
      MatchedIsGiven(tracks, p, f, k);
    }
  }

  // ----- the events of one visitor

  /** The events of one visitor in a list of events, in order. */
  function Kinds(events: seq<Event>, visitor: int): seq<EventKind> {
    if events == [] then []
    else
      var last := events[|events| - 1];
      Kinds(events[..|events| - 1], visitor) + if last.visitorId == visitor then [last.kind] else []
  }

  lemma {:induction false} KindsSplit(a: seq<Event>, b: seq<Event>, visitor: int)
    ensures Kinds(a + b, visitor) == Kinds(a, visitor) + Kinds(b, visitor)
  {
    if b == [] {
      assert a + b == a;
    } else {
      assert (a + b)[..|a + b| - 1] == a + b[..|b| - 1];
      KindsSplit(a, b[..|b| - 1], visitor);
    }
  }

  lemma KindsOne(kind: EventKind, t: Track, camera: string, ts: real, visitor: int)
    ensures Kinds([EventOf(kind, t, camera, ts)], visitor) == if t.visitorId == visitor then [kind] else []
    ensures Kinds([], visitor) == []
  {
    var e := EventOf(kind, t, camera, ts);
    assert [e][..0] == [];
    assert Kinds([e], visitor) == Kinds([], visitor) + if t.visitorId == visitor then [kind] else [];
  }

  /** What each of the three loops emits for a visitor: nothing for one it does
      not meet, at most one event for one it does. */
  lemma {:induction false} KindsReacquired(
    tracks: seq<Track>, matches: seq<Pair>, cols: nat, camera: string, ts: real, visitor: int, i: nat)
    requires Distinct(tracks) && IsAssignment(matches, |tracks|, cols)
    requires i < |tracks| ==> tracks[i].visitorId == visitor
    requires i >= |tracks| ==> forall k :: 0 <= k < |tracks| ==> tracks[k].visitorId != visitor
    ensures Kinds(Reacquired(tracks, matches, camera, ts), visitor) ==
            if i < |tracks| && tracks[i].state == LOST && i in Rows(matches) then [REACQUIRED] else []
  {
    if matches != [] {
      var init, last := matches[..|matches| - 1], matches[|matches| - 1];
      assert matches == init + [last];
      InitIsAssignment(matches, |tracks|, cols);
      RowsSnoc(init, last);
      KindsReacquired(tracks, init, cols, camera, ts, visitor, i);
      var t := tracks[last.0];
      KindsOne(REACQUIRED, t, camera, ts, visitor);
      KindsSplit(Reacquired(tracks, init, camera, ts),
                 if t.state == LOST then [EventOf(REACQUIRED, t, camera, ts)] else [], visitor);
      assert t.visitorId == visitor <==> last.0 == i;
    }
  }

  lemma {:induction false} KindsEntered(tracks: seq<Track>, p: Params, camera: string, ts: real, visitor: int, i: nat)
    requires Distinct(tracks)
    requires i < |tracks| ==> tracks[i].visitorId == visitor
    requires i >= |tracks| ==> forall k :: 0 <= k < |tracks| ==> tracks[k].visitorId != visitor
    ensures Kinds(Entered(tracks, p, camera, ts), visitor) ==
            if i < |tracks| && Promotes(tracks[i], p) then [ENTER] else []
    ensures Kinds(Exited(tracks, p, camera, ts), visitor) ==
            if i < |tracks| && Expires(tracks[i], p) then [EXIT] else []
  {
    if tracks != [] {
      var init, t := tracks[..|tracks| - 1], tracks[|tracks| - 1];
      KindsEntered(init, p, camera, ts, visitor, if i < |tracks| then i else |init|);
      KindsOne(ENTER, t, camera, ts, visitor);
      KindsOne(EXIT, t, camera, ts, visitor);
      KindsSplit(Entered(init, p, camera, ts), if Promotes(t, p) then [EventOf(ENTER, t, camera, ts)] else [], visitor);
      KindsSplit(Exited(init, p, camera, ts), if Expires(t, p) then [EventOf(EXIT, t, camera, ts)] else [], visitor);
      assert i < |init| ==> t.visitorId != visitor;
    }
  }

  lemma PromoteKeepsIds(tracks: seq<Track>, p: Params)
    requires Distinct(tracks)
    ensures Distinct(PromoteAll(tracks, p))
  {}

  lemma DistinctBefore(tracks: seq<Track>, tid: int, vid: int, p: Params, f: Frame)
    requires Ordered(tracks) && Issued(tracks, tid, vid) && Answers(tracks, p, f)
    ensures var before := Before(tracks, tid, vid, p, f);
            && Distinct(before) && |before| == |tracks| + |Unmatched(tracks, p, f)|
            && (forall k :: 0 <= k < |before| ==>
                  before[k].visitorId == if k < |tracks| then tracks[k].visitorId else vid + k - |tracks|)
            && (forall k :: 0 <= k < |tracks| ==>
                  var t := tracks[k];
                  before[k] == Marked(t, HighOf(tracks, p, f, t.trackId), LowOf(tracks, p, f, t.trackId), f.timestamp))
            && (forall k :: |tracks| <= k < |before| ==> before[k].state == NEW && before[k].hits == 1)
  {
    hide Given, Unmatched, Matches1, Matches2, High, Low, Candidates, Lost;
    var before := Before(tracks, tid, vid, p, f);
    forall k | 0 <= k < |before|
      ensures before[k].visitorId == if k < |tracks| then tracks[k].visitorId else vid + k - |tracks|
      ensures before[k].trackId == if k < |tracks| then tracks[k].trackId else tid + k - |tracks|
    {}
  }

  /** The index of a visitor's track in a list, or the length of the list. */
  ghost predicate Found(tracks: seq<Track>, visitor: int, i: nat) {
    if i < |tracks| then tracks[i].visitorId == visitor
    else forall k :: 0 <= k < |tracks| ==> tracks[k].visitorId != visitor
  }

  lemma Find(tracks: seq<Track>, visitor: int) returns (i: nat)
    ensures i <= |tracks| && Found(tracks, visitor, i)
  {
    i := 0;
    while i < |tracks| && tracks[i].visitorId != visitor
      invariant i <= |tracks| && forall k :: 0 <= k < i ==> tracks[k].visitorId != visitor
    {
      i := i + 1;
    }
  }

  /** The two matching stages report a lost track once for each that matches. */
  lemma StageWords(tracks: seq<Track>, p: Params, f: Frame, camera: string, t: Track)
    requires Ordered(tracks) && AllGood(tracks, p) && Answers(tracks, p, f) && t in tracks
    ensures IsAssignment(Matches1(tracks, p, f), |Candidates(tracks)|, |High(f.detections, p)|)
    ensures IsAssignment(Matches2(tracks, p, f), |Lost(tracks)|, |Low(f.detections, p)|)
    ensures Kinds(Reacquired(Candidates(tracks), Matches1(tracks, p, f), camera, f.timestamp), t.visitorId) ==
            if t.state == LOST && HighOf(tracks, p, f, t.trackId).Some? then [REACQUIRED] else []
    ensures Kinds(Reacquired(Lost(tracks), Matches2(tracks, p, f), camera, f.timestamp), t.visitorId) ==
            if t.state == LOST && LowOf(tracks, p, f, t.trackId).Some? then [REACQUIRED] else []
  {
    hide Given, Matches1, Matches2, High, Low, Candidates, Lost, Reacquired, Kinds, Rows;
    AnswersKept(tracks, p, f);
    CandidatesExact(tracks, p);
    var c, l := Candidates(tracks), Lost(tracks);
    var i := Find(c, t.visitorId);
    if i < |c| {
      assert c[i] in c;
      SameTrack(tracks, c[i], t);
    }
    GivenIff(c, Matches1(tracks, p, f), High(f.detections, p), i);
    KindsReacquired(c, Matches1(tracks, p, f), |High(f.detections, p)|, camera, f.timestamp, t.visitorId, i);
    var j := Find(l, t.visitorId);
    if j < |l| {
      assert l[j] in l;
      SameTrack(tracks, l[j], t);
      GivenIff(l, Matches2(tracks, p, f), Low(f.detections, p), j);
    }
    KindsReacquired(l, Matches2(tracks, p, f), |Low(f.detections, p)|, camera, f.timestamp, t.visitorId, j);
  }

  lemma EventsSplit(tracks: seq<Track>, tid: int, vid: int, p: Params, f: Frame, camera: string, visitor: int)
    requires Answers(tracks, p, f)
    ensures InRange(Matches1(tracks, p, f), |Candidates(tracks)|, |High(f.detections, p)|)
    ensures InRange(Matches2(tracks, p, f), |Lost(tracks)|, |Low(f.detections, p)|)
    ensures var before := Before(tracks, tid, vid, p, f);
            Kinds(Events(tracks, tid, vid, p, f, camera), visitor) ==
            Kinds(Reacquired(Candidates(tracks), Matches1(tracks, p, f), camera, f.timestamp), visitor)
            + Kinds(Reacquired(Lost(tracks), Matches2(tracks, p, f), camera, f.timestamp), visitor)
            + Kinds(Entered(before, p, camera, f.timestamp), visitor)
            + Kinds(Exited(PromoteAll(before, p), p, camera, f.timestamp), visitor)
  {
    hide Kinds, Before, Reacquired, Entered, Exited;
    AnswersKept(tracks, p, f);
    var before := Before(tracks, tid, vid, p, f);
    var r1 := Reacquired(Candidates(tracks), Matches1(tracks, p, f), camera, f.timestamp);
    var r2 := Reacquired(Lost(tracks), Matches2(tracks, p, f), camera, f.timestamp);
    var e, x := Entered(before, p, camera, f.timestamp), Exited(PromoteAll(before, p), p, camera, f.timestamp);
    KindsSplit(r1 + r2 + e, x, visitor);
    KindsSplit(r1 + r2, e, visitor);
    KindsSplit(r1, r2, visitor);
  }

  /** The events a frame emits for one of its tracks are exactly the word of
      that track, in order. */
  lemma EventsOfTrack(tracks: seq<Track>, tid: int, vid: int, p: Params, f: Frame, camera: string, k: nat)
    requires Invariant(tracks, tid, vid, p) && Answers(tracks, p, f) && k < |tracks|
    ensures var t := tracks[k];
            Kinds(Events(tracks, tid, vid, p, f, camera), t.visitorId) ==
            Word(t, HighOf(tracks, p, f, t.trackId), LowOf(tracks, p, f, t.trackId), p, f.timestamp)
  {
    hide Kinds, Events, Before, Reacquired, Entered, Exited, HighOf, LowOf, Marked;
    var t, before := tracks[k], Before(tracks, tid, vid, p, f);
    EventsSplit(tracks, tid, vid, p, f, camera, t.visitorId);
    StageWords(tracks, p, f, camera, t);
    DistinctBefore(tracks, tid, vid, p, f);
    PromoteKeepsIds(before, p);
    KindsEntered(before, p, camera, f.timestamp, t.visitorId, k);
    KindsEntered(PromoteAll(before, p), p, camera, f.timestamp, t.visitorId, k);
  }

  /** A visitor created in this frame gets ENTER at once if one hit is enough;
      anyone else gets nothing. */
  lemma EventsOfOther(tracks: seq<Track>, tid: int, vid: int, p: Params, f: Frame, camera: string, visitor: int)
    requires Invariant(tracks, tid, vid, p) && Answers(tracks, p, f)
    requires forall k :: 0 <= k < |tracks| ==> tracks[k].visitorId != visitor
    ensures Kinds(Events(tracks, tid, vid, p, f, camera), visitor) ==
            if vid <= visitor < vid + |Unmatched(tracks, p, f)| && p.minHits <= 1 then [ENTER] else []
  {
    hide Kinds, Events, Before, Reacquired, Entered, Exited, HighOf, LowOf, Marked, Unmatched;
    var before := Before(tracks, tid, vid, p, f);
    EventsSplit(tracks, tid, vid, p, f, camera, visitor);
    NoStageWords(tracks, p, f, camera, visitor);
    NewWords(tracks, tid, vid, p, f, camera, visitor);
    assert forall w: seq<EventKind> :: [] + [] + w + [] == w;
  }

  lemma NewWords(tracks: seq<Track>, tid: int, vid: int, p: Params, f: Frame, camera: string, visitor: int)
    requires Invariant(tracks, tid, vid, p) && Answers(tracks, p, f)
    requires forall k :: 0 <= k < |tracks| ==> tracks[k].visitorId != visitor
    ensures var before := Before(tracks, tid, vid, p, f);
            && Kinds(Entered(before, p, camera, f.timestamp), visitor) ==
               (if vid <= visitor < vid + |Unmatched(tracks, p, f)| && p.minHits <= 1 then [ENTER] else [])
            && Kinds(Exited(PromoteAll(before, p), p, camera, f.timestamp), visitor) == []
  {
    hide Kinds, Before, Entered, Exited, HighOf, LowOf, Marked, Unmatched;
    var before := Before(tracks, tid, vid, p, f);
    DistinctBefore(tracks, tid, vid, p, f);
    PromoteKeepsIds(before, p);
    var i := if vid <= visitor < vid + |Unmatched(tracks, p, f)| then |tracks| + visitor - vid else |before|;
    KindsEntered(before, p, camera, f.timestamp, visitor, i);
    KindsEntered(PromoteAll(before, p), p, camera, f.timestamp, visitor, i);
  }

  lemma NoStageWords(tracks: seq<Track>, p: Params, f: Frame, camera: string, visitor: int)
    requires Ordered(tracks) && AllGood(tracks, p) && Answers(tracks, p, f)
    requires forall k :: 0 <= k < |tracks| ==> tracks[k].visitorId != visitor
    ensures InRange(Matches1(tracks, p, f), |Candidates(tracks)|, |High(f.detections, p)|)
    ensures InRange(Matches2(tracks, p, f), |Lost(tracks)|, |Low(f.detections, p)|)
    ensures Kinds(Reacquired(Candidates(tracks), Matches1(tracks, p, f), camera, f.timestamp), visitor) == []
    ensures Kinds(Reacquired(Lost(tracks), Matches2(tracks, p, f), camera, f.timestamp), visitor) == []
  {
    hide Given, Matches1, Matches2, High, Low, Candidates, Lost, Reacquired, Kinds, Rows;
    AnswersKept(tracks, p, f);
    CandidatesExact(tracks, p);
    var c, l := Candidates(tracks), Lost(tracks);
    forall k | 0 <= k < |c| ensures c[k].visitorId != visitor {
      assert c[k] in c;
    }
    forall k | 0 <= k < |l| ensures l[k].visitorId != visitor {
      assert l[k] in l;
    }
    KindsReacquired(c, Matches1(tracks, p, f), |High(f.detections, p)|, camera, f.timestamp, visitor, |c|);
    KindsReacquired(l, Matches2(tracks, p, f), |Low(f.detections, p)|, camera, f.timestamp, visitor, |l|);
  }
}
