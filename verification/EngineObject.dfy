/** The `TransactionEngine` object: the dictionary of session objects. Its
    methods are the operations of the run model. */
module EngineObject {
  import opened Options
  import opened Transactions
  import opened SessionObject
  import opened EngineRuns

  class TransactionEngine {
    var sessions: map<Key, TransactionSessionState>
    /** The sessions as values. */
    ghost var model: map<Key, Session>

    ghost predicate Stands(k: Key)
      requires k in sessions
      reads this, sessions[k]
    {
      k in model && sessions[k].Value() == model[k]
    }

    ghost predicate Valid()
      reads this, sessions.Values
    {
      && model.Keys == sessions.Keys
      && (forall k {:trigger Stands(k)} :: k in sessions ==> Stands(k))
      && (forall j, k :: j in sessions && k in sessions && j != k ==> sessions[j] != sessions[k])
    }

    constructor ()
      ensures Valid() && model == map[]
    {
      sessions, model := map[], map[];
    }

    /** One turn of the detection loop. */
    method See(camera: string, track: Option<int>, timestamp: real, enteredAt: real)
      requires Valid()
      modifies this, sessions.Values
      ensures Valid() && fresh(sessions.Values - old(sessions.Values))
      ensures model == SeeAll(old(model), camera, [track], timestamp, enteredAt)
    {
      hide NewSession;
      SeeOne(model, camera, track, timestamp, enteredAt);
      if track == None || track.value < 0 {
        return;
      }
      var key := (camera, track.value);
      if key !in sessions {
        Create(key, timestamp, enteredAt);
      }
      Touch(key, timestamp);
    }

    method Create(key: Key, timestamp: real, enteredAt: real)
      requires Valid() && key !in sessions
      modifies this
      ensures Valid() && fresh(sessions.Values - old(sessions.Values)) && key in sessions
      ensures model == old(model)[key := NewSession(enteredAt, timestamp)]
    {
      hide NewSession;
      var created := new TransactionSessionState(enteredAt, timestamp);
      sessions := sessions[key := created];
      model := model[key := NewSession(enteredAt, timestamp)];
      forall k | k in sessions ensures Stands(k) {
        assert k != key ==> old(Stands(k));
      }
    }

    method Touch(key: Key, timestamp: real)
      requires Valid() && key in sessions
      modifies this`model, sessions[key]
      ensures Valid() && model == old(model)[key := old(model)[key].(lastSeen := timestamp)]
    {
      assert Stands(key);
      sessions[key].lastSeen := timestamp;
      model := model[key := model[key].(lastSeen := timestamp)];
      forall k | k in sessions ensures Stands(k) {
        assert old(Stands(k));
      }
    }

    /** One turn of the crossing loop. */
    method CrossOne(camera: string, e: ZoneEvent, now: real) returns (updates: seq<Key>)
      requires Valid()
      modifies this`model, sessions.Values
      ensures Valid() && (model, updates) == CrossAll(old(model), camera, [e], now)
    {
      hide HandleCrossing, StateChanged;
      CrossFirst(model, camera, e, now);
      var key := (camera, e.trackId);
      updates := [];
      if key !in sessions {
        return;
      }
      var s := sessions[key];
      assert Stands(key);
      var fired, p1 := s.HandleZoneCrossing(e.zone, e.kind, e.ts, now);
      if !fired {
        var changed, p2 := s.LookAtTime(now);
        fired := changed;
      }
      model := model[key := s.Value()];
      forall k | k in sessions ensures Stands(k) {
        assert old(Stands(k));
      }
      if fired {
        updates := [key];
      }
    }

    /** Which sessions of a camera are lost. */
    method SelectLost(camera: string, timestamp: real, ids: set<int>) returns (lost: set<Key>)
      requires Valid()
      ensures lost == Stale(model, camera, ids, timestamp) && lost <= sessions.Keys
    {
      lost := set k | k in sessions && k.0 == camera && k.1 !in ids && timestamp - sessions[k].lastSeen > 15.0;
      forall k | k in sessions ensures sessions[k].lastSeen == model[k].lastSeen {
        assert Stands(k);
      }
    }

    /** Takes sessions out of the dictionary. */
    method TakeOut(lost: set<Key>) returns (taken: map<Key, TransactionSessionState>)
      requires Valid() && lost <= sessions.Keys
      modifies this
      ensures Valid() && model == old(model) - lost && taken.Keys == lost
      ensures sessions.Values <= old(sessions.Values)
      ensures forall k :: k in taken ==> taken[k] in old(sessions.Values) && taken[k].Value() == old(model)[k]
      ensures forall k :: k in taken ==> taken[k] !in sessions.Values
      ensures forall j, k :: j in taken && k in taken && j != k ==> taken[j] != taken[k]
    {
      taken := map k | k in lost :: sessions[k];
      sessions := sessions - lost;
      model := model - lost;
      forall k | k in sessions ensures Stands(k) {
        assert old(Stands(k));
      }
      forall k | k in taken ensures taken[k].Value() == old(model)[k] {
        assert old(Stands(k));
      }
    }

    /** The loop that ends the sessions taken out. */
    static method MarkExited(taken: map<Key, TransactionSessionState>)
      requires forall j, k :: j in taken && k in taken && j != k ==> taken[j] != taken[k]
      modifies taken.Values
      ensures forall k :: k in taken ==> taken[k].Value() == old(taken[k].Value()).(state := EXITED_STORE)
    {
      forall k | k in taken {
        taken[k].state := EXITED_STORE;
      }
    }

    /** `_handle_lost_tracks`: takes the stale sessions out and ends them. */
    method HandleLostTracks(camera: string, timestamp: real, ids: set<int>)
      returns (ended: map<Key, TransactionSessionState>)
      requires Valid()
      modifies this, sessions.Values
      ensures Valid() && fresh(sessions.Values - old(sessions.Values))
      ensures model == old(model) - Stale(old(model), camera, ids, timestamp)
      ensures ended.Keys == Stale(old(model), camera, ids, timestamp)
      ensures forall k :: k in ended ==> ended[k].Value() == old(model)[k].(state := EXITED_STORE)
    {
      hide Stale;
      var lost := SelectLost(camera, timestamp, ids);
      ended := TakeOut(lost);
      label Taken:
      MarkExited(ended);
      forall k | k in sessions ensures Stands(k) {
        assert old@Taken(Stands(k));
      }
    }

    /** `process_frame`. */
    method ProcessFrame(camera: string, timestamp: real, tracks: seq<Option<int>>, events: seq<ZoneEvent>, now: real,
                        enteredAt: real)
      returns (updates: seq<Key>, ended: map<Key, TransactionSessionState>)
      requires Valid()
      modifies this, sessions.Values
      ensures Valid() && fresh(sessions.Values - old(sessions.Values))
      ensures var op := Op.ProcessFrame(camera, timestamp, tracks, events, now, enteredAt);
              && model == Apply(old(model), op).0
              && ended.Keys == Apply(old(model), op).1.Keys
              && (forall k :: k in ended ==> ended[k].Value() == Apply(old(model), op).1[k])
      ensures updates == CrossAll(SeeAll(old(model), camera, tracks, timestamp, enteredAt), camera, events, now).1
    {
      hide SeeAll, CrossAll, Stale;
      ghost var m := model;
      var ids: set<int> := {};
      SeeNone(m, camera, timestamp, enteredAt);
      for i := 0 to |tracks|
        invariant Valid() && fresh(sessions.Values - old(sessions.Values))
        invariant model == SeeAll(m, camera, tracks[..i], timestamp, enteredAt) && ids == Ids(tracks[..i])
      {
        SeeMore(m, camera, tracks, i, timestamp, enteredAt);
        See(camera, tracks[i], timestamp, enteredAt);
        if IsTrack(tracks[i]) {
          ids := ids + {tracks[i].value};
        }
      }
      assert tracks[..|tracks|] == tracks;
      updates := [];
      ghost var seen := model;
      CrossNone(seen, camera, now);
      for i := 0 to |events|
        invariant Valid() && fresh(sessions.Values - old(sessions.Values))
        invariant (model, updates) == CrossAll(seen, camera, events[..i], now)
      {
        CrossMore(seen, camera, events, i, now);
        var more := CrossOne(camera, events[i], now);
        updates := updates + more;
      }
      assert events[..|events|] == events;
      ended := HandleLostTracks(camera, timestamp, ids);
    }

    /** `notify_track_end`. */
    method NotifyTrackEnd(camera: string, trackId: int) returns (ended: map<Key, TransactionSessionState>)
      requires Valid()
      modifies this, sessions.Values
      ensures Valid() && model == Apply(old(model), TrackEnd(camera, trackId)).0
      ensures ended.Keys == Apply(old(model), TrackEnd(camera, trackId)).1.Keys
      ensures forall k :: k in ended ==> ended[k].Value() == Apply(old(model), TrackEnd(camera, trackId)).1[k]
    {
      var key := (camera, trackId);
      ended := map[];
      if key in sessions {
        assert Stands(key);
        var s := sessions[key];
        ended := map[key := s];
        s.state := EXITED_STORE;
      }
      sessions, model := sessions - {key}, model - {key};
      forall k | k in sessions ensures Stands(k) {
        assert old(Stands(k));
      }
    }
  }

  lemma SeeNone(sessions: map<Key, Session>, camera: string, timestamp: real, enteredAt: real)
    ensures SeeAll(sessions, camera, [], timestamp, enteredAt) == sessions
  {}

  lemma CrossNone(sessions: map<Key, Session>, camera: string, now: real)
    ensures CrossAll(sessions, camera, [], now) == (sessions, [])
  {}

  lemma SeeMore(sessions: map<Key, Session>, camera: string, tracks: seq<Option<int>>, i: nat, timestamp: real,
                enteredAt: real)
    requires i < |tracks|
    ensures SeeAll(sessions, camera, tracks[..i + 1], timestamp, enteredAt) ==
            SeeAll(SeeAll(sessions, camera, tracks[..i], timestamp, enteredAt), camera, [tracks[i]], timestamp,
                enteredAt)
    ensures Ids(tracks[..i + 1]) == Ids(tracks[..i]) + if IsTrack(tracks[i]) then {tracks[i].value} else {}
  {
    var init := tracks[..i];
    var all := tracks[..i + 1];
    assert all[..i] == init && all[i] == tracks[i];
    SeeOne(SeeAll(sessions, camera, init, timestamp, enteredAt), camera, tracks[i], timestamp, enteredAt);
    forall id ensures id in Ids(all) <==> id in Ids(init) || (IsTrack(tracks[i]) && id == tracks[i].value) {
      if id in Ids(init) {
        var k :| 0 <= k < |init| && IsTrack(init[k]) && init[k].value == id;
        assert all[k] == init[k];
      }
    }
  }

  lemma CrossMore(sessions: map<Key, Session>, camera: string, events: seq<ZoneEvent>, i: nat, now: real)
    requires i < |events|
    ensures var (before, updates) := CrossAll(sessions, camera, events[..i], now);
            var (after, more) := CrossAll(before, camera, [events[i]], now);
            CrossAll(sessions, camera, events[..i + 1], now) == (after, updates + more)
  {
    assert events[..i + 1][..i] == events[..i];
    var (before, updates) := CrossAll(sessions, camera, events[..i], now);
    CrossFirst(before, camera, events[i], now);
    assert updates + [] == updates;
  }

  lemma SeeOne(sessions: map<Key, Session>, camera: string, track: Option<int>, timestamp: real, enteredAt: real)
    ensures SeeAll(sessions, camera, [track], timestamp, enteredAt) ==
            if !IsTrack(track) then sessions
            else
              var key := (camera, track.value);
              var s := if key in sessions then sessions[key] else NewSession(enteredAt, timestamp);
              sessions[key := s.(lastSeen := timestamp)]
  {
    assert [track][..0] == [];
  }

  lemma CrossFirst(sessions: map<Key, Session>, camera: string, e: ZoneEvent, now: real)
    ensures var key := (camera, e.trackId);
            CrossAll(sessions, camera, [e], now) ==
            if key !in sessions then (sessions, [])
            else
              var (s, changed, predictions) := Cross(sessions[key], e.zone, e.kind, e.ts, now);
              (sessions[key := s], if changed then [key] else [])
  {
    assert [e][..0] == [];
    assert forall updates: seq<Key> :: [] + updates == updates;
  }
}
