/** The `TrackingService` object: one `ByteTracker` a camera, all of them on the
    same id generator. Its methods are the operations of the run model. */
module TrackingService {
  import opened Tracking
  import opened TrackFrames
  import opened ByteTracking
  import opened TrackRuns

  /** A tracker object stands for a tracker of the run model. */
  ghost predicate Is(t: ByteTracker, camera: string, v: Tracker, idGen: VisitorIDGenerator, params: Params)
    reads t, t.tracks
  {
    && t.camera == camera && t.idGen == idGen && t.params == params
    && DistinctObjects(t.tracks) && OwnedBy(t.tracks, camera)
    && v == Tracker(Values(t.tracks), t.nextTid)
  }

  class TrackingService {
    const idGen: VisitorIDGenerator
    const params: Params
    var trackers: map<string, ByteTracker>
    /** The service as a value of the run model. */
    ghost var model: Service

    ghost predicate Stands(c: string)
      requires c in trackers
      reads this, trackers[c], trackers[c].tracks
    {
      c in model.trackers && Is(trackers[c], c, model.trackers[c], idGen, params)
    }

    /** The trackers and their tracks. */
    ghost function Footprint(): set<object>
      reads this, trackers.Values
    {
      trackers.Values + set t, k | t in trackers.Values && 0 <= k < |t.tracks| :: t.tracks[k]
    }

    ghost predicate Valid()
      reads this, Footprint(), idGen
    {
      && model.counter == idGen.counter && model.trackers.Keys == trackers.Keys
      && Structured(model, params)
      && (forall c {:trigger Stands(c)} :: c in trackers ==> Stands(c))
    }

    constructor (params: Params)
      ensures Valid() && model == INITIAL && this.params == params
    {
      idGen := new VisitorIDGenerator();
      this.params := params;
      trackers := map[];
      model := INITIAL;
    }

    /** `get_tracker`. */
    method GetTracker(camera: string)
      requires Valid()
      modifies this`trackers, this`model
      ensures Valid() && camera in trackers && fresh(Footprint() - old(Footprint()))
      ensures model == Service(old(model).trackers[camera := Of(old(model), camera)], old(model).counter)
    {
      hide Invariant, Is;
      ghost var before := model;
      if camera !in trackers {
        var t := new ByteTracker(camera, idGen, params);
        NowStands(t);
        trackers := trackers[camera := t];
        model := model.(trackers := model.trackers[camera := Tracker([], 1)]);
        forall c | c in trackers ensures Stands(c) {
          assert c != camera ==> old(Stands(c));
        }
        NewIsStructured(before, camera, params);
      } else {
        assert model.trackers == model.trackers[camera := Of(model, camera)];
      }
    }

    /** `reset_camera`. */
    method ResetCamera(camera: string)
      requires Valid()
      modifies this`model, trackers.Values
      ensures Valid() && trackers == old(trackers)
      ensures model == Apply(old(model), Op.ResetCamera(camera), params).0
    {
      hide Invariant, Is, ByteTracker.Valid;
      if camera in trackers {
        var t := trackers[camera];
        TrackersNamed();
        TrackerValid(camera);
        t.Reset();
        NowStands(t);
        model := model.(trackers := model.trackers[camera := model.trackers[camera].(tracks := [])]);
        forall c | c in trackers ensures Stands(c) {
          assert old(Stands(c));
        }
      }
    }

    lemma TrackersNamed()
      requires Valid()
      ensures forall c :: c in trackers ==> trackers[c].camera == c
    {
      forall c | c in trackers ensures trackers[c].camera == c {
        assert Stands(c);
      }
    }

    lemma TrackerValid(camera: string)
      requires Valid() && camera in trackers
      ensures var t := trackers[camera];
              && t.Valid() && t.idGen == idGen && t.params == params
              && model.trackers[camera] == Tracker(Values(t.tracks), t.nextTid)
    {
      assert Stands(camera);
    }

    /** `remove_camera`. */
    method RemoveCamera(camera: string)
      requires Valid()
      modifies this`model, this`trackers
      ensures Valid() && model == Apply(old(model), Op.RemoveCamera(camera), params).0
      ensures Footprint() <= old(Footprint())
    {
      hide Invariant, Is;
      trackers := trackers - {camera};
      model := model.(trackers := model.trackers - {camera});
      forall c | c in trackers ensures Stands(c) {
        assert old(Stands(c));
      }
    }

    /** One frame of one camera's tracker leaves the others alone. */
    method UpdateTracker(camera: string, f: Frame, ghost frame: Frame) returns (active: seq<STrack>, events: seq<Event>)
      requires Valid() && camera in trackers && f == PersonFrame(frame)
      requires Enabled(model, Op.Process(camera, frame), params)
      modifies this`model, idGen, trackers[camera], trackers[camera].tracks
      ensures Valid() && fresh(Footprint() - old(Footprint()))
      ensures (model, events) == Apply(old(model), Op.Process(camera, frame), params)
      ensures forall t :: t in active <==> t in trackers[camera].tracks && (t.state == TRACKED || t.state == NEW)
    {
      hide Invariant, Is, ByteTracker.Valid, After, Events, Unmatched, Answers, Structured, Footprint;
      var t := trackers[camera];
      TrackersNamed();
      TrackerValid(camera);
      OthersApart(camera);
      FrameKeepsStructured(model, camera, frame, params);
      active, events := t.Update(f);
      NowStands(t);
      model := Service(model.trackers[camera := Tracker(Values(t.tracks), t.nextTid)], idGen.counter);
      OnlyNewTracks(camera);
      forall c | c in trackers ensures Stands(c) {
        assert c != camera ==> old(Stands(c));
      }
    }

    twostate lemma OnlyNewTracks(camera: string)
      requires camera in trackers && trackers == old(trackers)
      requires forall c :: c in trackers && c != camera ==> trackers[c].tracks == old(trackers[c].tracks)
      requires forall t :: t in trackers[camera].tracks ==> t in old(trackers[camera].tracks) || fresh(t)
      ensures fresh(Footprint() - old(Footprint()))
    {
      forall c, k | c in trackers && 0 <= k < |trackers[c].tracks|
        ensures trackers[c].tracks[k] in old(Footprint()) || fresh(trackers[c].tracks[k])
      {
        assert trackers[c].tracks[k] in trackers[c].tracks && trackers[c] in old(trackers).Values;
      }
    }

    /** No other tracker has any of this one's tracks. */
    lemma OthersApart(camera: string)
      requires Valid() && camera in trackers
      ensures forall c, j :: c in trackers && c != camera && 0 <= j < |trackers[c].tracks| ==>
                trackers[c].tracks[j] !in trackers[camera].tracks
    {
      assert Stands(camera);
      forall c, j | c in trackers && c != camera && 0 <= j < |trackers[c].tracks|
        ensures trackers[c].tracks[j] !in trackers[camera].tracks
      {
        assert Stands(c) && trackers[c].tracks[j] in trackers[c].tracks;
      }
    }

    method SelectPersons(detections: seq<Detection>) returns (persons: seq<Detection>)
      ensures persons == Persons(detections)
    {
      persons := [];
      for i := 0 to |detections|
        invariant persons == Persons(detections[..i])
      {
        assert detections[..i + 1][..i] == detections[..i];
        if detections[i].classId == 0 {
          persons := persons + [detections[i]];
        }
      }
      assert detections[..|detections|] == detections;
    }

    /** `process`: one frame of one camera. */
    method Process(camera: string, frame: Frame) returns (active: seq<STrack>, events: seq<Event>)
      requires Valid() && Enabled(model, Op.Process(camera, frame), params)
      modifies this`trackers, this`model, idGen, Footprint()
      ensures Valid() && fresh(Footprint() - old(Footprint()))
      ensures (model, events) == Apply(old(model), Op.Process(camera, frame), params)
      ensures camera in trackers
      ensures forall t :: t in active <==> t in trackers[camera].tracks && (t.state == TRACKED || t.state == NEW)
    {
      hide Valid, Stands, After, Events, Unmatched, Answers;
      ghost var before := model;
      var persons := SelectPersons(frame.detections);
      GetTracker(camera);
      InFootprint(camera);
      active, events := UpdateTracker(camera, frame.(detections := persons), frame);
      ProcessAfterGet(before, camera, frame, params);
    }

    lemma InFootprint(camera: string)
      requires camera in trackers
      ensures trackers[camera] in Footprint() && forall t :: t in trackers[camera].tracks ==> t in Footprint()
    {}
  }

  lemma NowStands(t: ByteTracker)
    requires t.Valid()
    ensures Is(t, t.camera, Tracker(Values(t.tracks), t.nextTid), t.idGen, t.params)
  {}

  lemma NewIsStructured(s: Service, camera: string, p: Params)
    requires Structured(s, p) && camera !in s.trackers
    ensures Structured(s.(trackers := s.trackers[camera := Tracker([], 1)]), p)
  {
    OfIsStructured(s, camera, p);
  }

  /** Making the tracker first changes nothing about a frame. */
  lemma ProcessAfterGet(s: Service, camera: string, frame: Frame, p: Params)
    requires Enabled(s, Op.Process(camera, frame), p)
    ensures var got := s.(trackers := s.trackers[camera := Of(s, camera)]);
            && Enabled(got, Op.Process(camera, frame), p)
            && Apply(got, Op.Process(camera, frame), p) == Apply(s, Op.Process(camera, frame), p)
  {
    hide Unmatched, After, Events, Answers;
    var t, t' := Of(s, camera), Apply(s, Op.Process(camera, frame), p).0.trackers[camera];
    assert s.trackers[camera := t][camera := t'] == s.trackers[camera := t'];
  }
}
