/** The life of one track over any run of frames. */
module TrackLife {
  import opened Options
  import opened Tracking

  /** What holds of every track between frames. */
  ghost predicate Good(t: Track, p: Params) {
    match t.state
    case NEW => t.hits == t.age < p.minHits && t.timeSinceUpdate == 0
    case TRACKED => t.timeSinceUpdate == 0
    case LOST => 1 <= t.timeSinceUpdate <= p.maxLost
    case REMOVED => false
  }

  /** A track after one frame, before it is checked for expiry. */
  function Step(t: Track, high: Option<Detection>, low: Option<Detection>, p: Params, ts: real): Track {
    Promoted(Marked(t, high, low, ts), p)
  }

  /** The events of one track in one frame, in the order they are emitted. */
  function Word(t: Track, high: Option<Detection>, low: Option<Detection>, p: Params, ts: real): seq<EventKind> {
    (if t.state == LOST && high.Some? then [REACQUIRED] else [])
    + (if t.state == LOST && low.Some? then [REACQUIRED] else [])
    + (if Promotes(Marked(t, high, low, ts), p) then [ENTER] else [])
    + (if Expires(Step(t, high, low, p, ts), p) then [EXIT] else [])
  }

  /** Only a NEW track matched with high confidence can stay NEW or enter; a
      lost track is TRACKED again if and only if both stages matched it, though
      either stage alone reports it reacquired: matched once it is lost anew
      with a count of 1, matched in neither stage it is counted twice. */
  lemma StepByCase(t: Track, high: Option<Detection>, low: Option<Detection>, p: Params, ts: real)
    requires Good(t, p)
    ensures var s := Step(t, high, low, p, ts);
            && (Expires(s, p) || Good(s, p))
            && s.age == t.age + 1
            && (t.state == NEW ==>
                  if high.None? then s.state == LOST && s.timeSinceUpdate == 1
                  else s.hits == t.hits + 1 && s.state == if s.hits >= p.minHits then TRACKED else NEW)
            && (t.state == TRACKED ==>
                  if high.Some? then s.state == TRACKED else s.state == LOST && s.timeSinceUpdate == 1)
            && (t.state == LOST ==>
                  && (s.state == TRACKED <==> high.Some? && low.Some?)
                  && (s.state == LOST ==>
                        s.timeSinceUpdate == if high.None? && low.None? then t.timeSinceUpdate + 2 else 1))
  {}

  // ----- the language of events

  /** ENTER? REACQUIRED* */
  ghost predicate Open(w: seq<EventKind>) {
    && (w != [] ==> w[0] == ENTER || w[0] == REACQUIRED)
    && (forall k :: 1 <= k < |w| ==> w[k] == REACQUIRED)
  }

  /** ENTER? REACQUIRED* EXIT? */
  ghost predicate Legal(w: seq<EventKind>) {
    Open(w) || (w != [] && w[|w| - 1] == EXIT && Open(w[..|w| - 1]))
  }

  /** The history a live track can have: nothing yet while it is NEW. */
  ghost predicate History(t: Track, w: seq<EventKind>) {
    if t.state == NEW then w == [] else Open(w)
  }

  lemma OpenExtends(w: seq<EventKind>, more: seq<EventKind>)
    requires Open(w) && forall k :: 0 <= k < |more| ==> more[k] == REACQUIRED
    ensures Open(w + more)
  {}

  /** The word of a track before its expiry. */
  ghost function Front(t: Track, high: Option<Detection>, low: Option<Detection>, p: Params, ts: real):
      (f: seq<EventKind>)
    ensures Word(t, high, low, p, ts) == f + if Expires(Step(t, high, low, p, ts), p) then [EXIT] else []
  {
    (if t.state == LOST && high.Some? then [REACQUIRED] else [])
    + (if t.state == LOST && low.Some? then [REACQUIRED] else [])
    + (if Promotes(Marked(t, high, low, ts), p) then [ENTER] else [])
  }

  lemma FrontByCase(t: Track, high: Option<Detection>, low: Option<Detection>, p: Params, ts: real)
    requires Good(t, p)
    ensures var f := Front(t, high, low, p, ts);
            && (t.state == NEW ==> f == [] || f == [ENTER])
            && (t.state != NEW ==> forall k :: 0 <= k < |f| ==> f[k] == REACQUIRED)
            && (Step(t, high, low, p, ts).state == NEW ==> t.state == NEW && f == [])
  {}

  /** One frame extends the history of a track to a history of its successor;
      when the track expires the history is complete. */
  lemma WordExtends(t: Track, w: seq<EventKind>, high: Option<Detection>, low: Option<Detection>, p: Params, ts: real)
    requires Good(t, p) && History(t, w)
    ensures var s, more := Step(t, high, low, p, ts), Word(t, high, low, p, ts);
            && Legal(w + more)
            && (!Expires(s, p) ==> History(s, w + more))
  {
    hide Step, Word, Front, Open, Good;
    var s, more, f := Step(t, high, low, p, ts), Word(t, high, low, p, ts), Front(t, high, low, p, ts);
    FrontByCase(t, high, low, p, ts);
    assert Open(w + f) by { FrontOpens(t, w, f); }
    if Expires(s, p) {
      assert w + more == w + f + [EXIT];
      assert (w + more)[..|w + more| - 1] == w + f;
    } else {
      assert f + [] == f;
    }
  }

  lemma FrontOpens(t: Track, w: seq<EventKind>, f: seq<EventKind>)
    requires History(t, w)
    requires t.state == NEW ==> f == [] || f == [ENTER]
    requires t.state != NEW ==> forall k :: 0 <= k < |f| ==> f[k] == REACQUIRED
    ensures Open(w + f)
  {
    if t.state == NEW {
      assert w + f == f;
    } else {
      OpenExtends(w, f);
    }
  }

  // ----- progress

  /** What one track is given in one frame. */
  datatype Input = Input(high: Option<Detection>, low: Option<Detection>, ts: real)

  /** A track after a run of frames, as long as it is not expired. */
  function Run(t: Track, inputs: seq<Input>, p: Params): Track {
    if inputs == [] then t
    else
      var last := inputs[|inputs| - 1];
      Step(Run(t, inputs[..|inputs| - 1], p), last.high, last.low, p, last.ts)
  }

  ghost predicate AllMatched(inputs: seq<Input>) {
    forall k :: 0 <= k < |inputs| ==> inputs[k].high.Some?
  }

  ghost predicate NoneMatched(inputs: seq<Input>) {
    forall k :: 0 <= k < |inputs| ==> inputs[k].high.None? && inputs[k].low.None?
  }

  lemma AllMatchedSnoc(inputs: seq<Input>)
    requires inputs != []
    ensures AllMatched(inputs) <==> AllMatched(inputs[..|inputs| - 1]) && inputs[|inputs| - 1].high.Some?
  {
    var n := |inputs| - 1;
    var init := inputs[..n];
    assert forall k :: 0 <= k < n ==> init[k] == inputs[k];
    if AllMatched(init) && inputs[n].high.Some? {
      forall k | 0 <= k < |inputs| ensures inputs[k].high.Some? {
        assert k < n ==> init[k].high.Some?;
      }
    }
  }

  lemma {:induction false} NewRun(t: Track, inputs: seq<Input>, p: Params)
    requires t.state == NEW && t.hits == 1
    ensures var s := Run(t, inputs, p);
            && (s.state == NEW <==> AllMatched(inputs) && (inputs == [] || 1 + |inputs| < p.minHits))
            && (s.state == NEW ==> s.hits == 1 + |inputs|)
  {
    if inputs != [] {
      var init, last := inputs[..|inputs| - 1], inputs[|inputs| - 1];
      NewRun(t, init, p);
      AllMatchedSnoc(inputs);
    }
  }

  /** A track left NEW by the frame that created it enters in the last frame of
      a run if and only if every frame since matched it with a high-confidence
      detection and there are exactly min_hits - 1 of them: one miss and it
      never enters. */
  lemma EntersExactlyWhen(t: Track, inputs: seq<Input>, p: Params)
    requires t.state == NEW && t.hits == 1 && Good(t, p) && inputs != []
    ensures var init, last := inputs[..|inputs| - 1], inputs[|inputs| - 1];
            ENTER in Word(Run(t, init, p), last.high, last.low, p, last.ts) <==>
            AllMatched(inputs) && |inputs| == p.minHits - 1
  {
    var init, last := inputs[..|inputs| - 1], inputs[|inputs| - 1];
    NewRun(t, init, p);
    AllMatchedSnoc(inputs);
  }

  lemma {:induction false} IdleRun(t: Track, inputs: seq<Input>, p: Params)
    requires t.state == TRACKED || t.state == NEW
    requires Good(t, p) && inputs != [] && NoneMatched(inputs)
    ensures Run(t, inputs, p).state == LOST && Run(t, inputs, p).timeSinceUpdate == 2 * |inputs| - 1
  {
    var init := inputs[..|inputs| - 1];
    if init == [] {
      assert Run(t, init, p) == t;
    } else {
      IdleRun(t, init, p);
    }
  }

  /** A track that stays unmatched is removed, and exactly in frame
      (max_lost + 1) div 2 + 1: after the first miss every frame counts twice. */
  lemma RemovedExactlyWhen(t: Track, inputs: seq<Input>, p: Params)
    requires t.state == TRACKED || t.state == NEW
    requires Good(t, p) && inputs != [] && NoneMatched(inputs) && p.maxLost >= 0
    ensures Expires(Run(t, inputs, p), p) <==> |inputs| >= (p.maxLost + 1) / 2 + 1
  {
    IdleRun(t, inputs, p);
  }
}
