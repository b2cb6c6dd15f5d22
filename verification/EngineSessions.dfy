/** Which sessions an operation of the engine touches, and how. */
module EngineSessions {
  import opened Options
  import opened Transactions
  import opened EngineRuns
  import opened SessionSignals

  /** The keys of the tracks a frame shows. */
  function Shown(camera: string, tracks: seq<Option<int>>): set<Key> {
    set i | 0 <= i < |tracks| && tracks[i].Some? && tracks[i].value >= 0 :: (camera, tracks[i].value)
  }

  /** The detection loop: every track shown has a session, made if there was
      none, that was last seen now; nothing else changes. */
  lemma {:induction false} SeenExactly(
    sessions: map<Key, Session>, camera: string, tracks: seq<Option<int>>, timestamp: real, enteredAt: real)
    ensures var seen := SeeAll(sessions, camera, tracks, timestamp, enteredAt);
            && seen.Keys == sessions.Keys + Shown(camera, tracks)
            && (forall k :: k in seen ==>
                  var before := if k in sessions then sessions[k] else NewSession(enteredAt, timestamp);
                  seen[k] == if k in Shown(camera, tracks) then before.(lastSeen := timestamp) else before)
  {
    if tracks != [] {
      var n := |tracks| - 1;
      SeenExactly(sessions, camera, tracks[..n], timestamp, enteredAt);
      var last := tracks[n];
      var before, now := Shown(camera, tracks[..n]), Shown(camera, tracks);
      assert forall i :: 0 <= i < n ==> tracks[..n][i] == tracks[i];
      assert now == before + if last.Some? && last.value >= 0 then {(camera, last.value)} else {};
    }
  }

  /** The crossing loop touches only sessions its events name, and begins and
      ends none. */
  lemma {:induction false} CrossedOnly(
    sessions: map<Key, Session>, camera: string, events: seq<ZoneEvent>, now: real)
    ensures var crossed := CrossAll(sessions, camera, events, now).0;
            && crossed.Keys == sessions.Keys
            && (forall k :: k in sessions && (k.0 != camera || forall e :: e in events ==> e.trackId != k.1) ==>
                  crossed[k] == sessions[k])
  {
    hide Cross;
    if events != [] {
      var n := |events| - 1;
      CrossedOnly(sessions, camera, events[..n], now);
      assert events[n] in events && forall e :: e in events[..n] ==> e in events;
    }
  }

  lemma {:induction false} CrossedKeepsSeen(
    sessions: map<Key, Session>, camera: string, events: seq<ZoneEvent>, now: real)
    ensures var crossed := CrossAll(sessions, camera, events, now).0;
            crossed.Keys == sessions.Keys && forall k :: k in sessions ==> crossed[k].lastSeen == sessions[k].lastSeen
  {
    hide Cross;
    if events != [] {
      var n := |events| - 1;
      CrossedKeepsSeen(sessions, camera, events[..n], now);
      var before, e := CrossAll(sessions, camera, events[..n], now).0, events[n];
      if (camera, e.trackId) in before {
        CrossKeepsSeen(before[(camera, e.trackId)], e.zone, e.kind, e.ts, now);
      }
    }
  }

  lemma SignalledKeepsSeen(s: Session, condition: bool, signal: Signal, now: real)
    ensures Signalled(s, condition, signal, now).lastSeen == s.lastSeen
  {}

  lemma MovedKeepsSeen(s: Session, condition: bool, to: VisitorState)
    ensures Moved(s, condition, to).lastSeen == s.lastSeen
  {}

  lemma CrossKeepsSeen(s: Session, zone: Zone, kind: Crossing, ts: real, now: real)
    ensures Cross(s, zone, kind, ts, now).0.lastSeen == s.lastSeen
  {
    hide Entered, Left, Signalled, Moved, Takes;
    EnteredKeepsSeen(s, zone, ts, now);
    LeftKeepsSeen(s, zone, ts, now);
    forall t: Session, c, signal ensures Signalled(t, c, signal, now).lastSeen == t.lastSeen {
      SignalledKeepsSeen(t, c, signal, now);
    }
    forall t: Session, c, to ensures Moved(t, c, to).lastSeen == t.lastSeen {
      MovedKeepsSeen(t, c, to);
    }
  }

  lemma EnteredKeepsSeen(s: Session, zone: Zone, ts: real, now: real)
    ensures Entered(s, zone, ts, now).lastSeen == s.lastSeen
  {
    hide Signalled, Moved;
    forall t: Session, c, signal ensures Signalled(t, c, signal, now).lastSeen == t.lastSeen {
      SignalledKeepsSeen(t, c, signal, now);
    }
    forall t: Session, c, to ensures Moved(t, c, to).lastSeen == t.lastSeen {
      MovedKeepsSeen(t, c, to);
    }
  }

  lemma LeftKeepsSeen(s: Session, zone: Zone, ts: real, now: real)
    ensures Left(s, zone, ts, now).lastSeen == s.lastSeen
  {
    hide Signalled, Moved;
    forall t: Session, c, signal ensures Signalled(t, c, signal, now).lastSeen == t.lastSeen {
      SignalledKeepsSeen(t, c, signal, now);
    }
    forall t: Session, c, to ensures Moved(t, c, to).lastSeen == t.lastSeen {
      MovedKeepsSeen(t, c, to);
    }
  }

  /** A frame ends exactly the sessions of its camera that it does not show and
      that were last seen more than 15 s before it; all others stay. */
  lemma EndedExactly(sessions: map<Key, Session>, op: Op)
    requires op.ProcessFrame?
    ensures var (after, ended) := Apply(sessions, op);
            var shown := Shown(op.camera, op.tracks);
            && ended.Keys == (set k | k in sessions && k.0 == op.camera && k !in shown
                                      && op.timestamp - sessions[k].lastSeen > 15.0)
            && after.Keys == sessions.Keys + shown - ended.Keys
            && (forall k :: k in ended ==> ended[k].state == EXITED_STORE)
  {
    hide SeeAll, CrossAll;
    var seen := SeeAll(sessions, op.camera, op.tracks, op.timestamp, op.enteredAt);
    SeenExactly(sessions, op.camera, op.tracks, op.timestamp, op.enteredAt);
    CrossedKeepsSeen(seen, op.camera, op.events, op.now);
    var shown := Shown(op.camera, op.tracks);
    forall k: Key | k.0 == op.camera ensures k in shown <==> k.1 in Ids(op.tracks) {
      if k in shown {
        var i :| 0 <= i < |op.tracks| && op.tracks[i].Some? && op.tracks[i].value >= 0
                 && (op.camera, op.tracks[i].value) == k;
        assert IsTrack(op.tracks[i]);
      }
      if k.1 in Ids(op.tracks) {
        var i :| 0 <= i < |op.tracks| && IsTrack(op.tracks[i]) && op.tracks[i].value == k.1;
        assert (op.camera, op.tracks[i].value) in shown;
      }
    }
  }

  /** One more event: it touches its session, if there is one, and an update is
      sent for it exactly when a signal is new or time has moved the visitor on;
      a move that a crossing alone makes sends none. */
  lemma UpdatesExactly(sessions: map<Key, Session>, camera: string, events: seq<ZoneEvent>, e: ZoneEvent, now: real)
    requires now >= 30.0
    requires var before := CrossAll(sessions, camera, events, now).0;
             (camera, e.trackId) in before ==> Cooled(before[(camera, e.trackId)])
    ensures var (before, sent) := CrossAll(sessions, camera, events, now);
            var key := (camera, e.trackId);
            var (after, updates) := CrossAll(sessions, camera, events + [e], now);
            if key !in before then after == before && updates == sent
            else
              var crossed := HandleCrossing(before[key], e.zone, e.kind, e.ts, now).0;
              && after == before[key := Cross(before[key], e.zone, e.kind, e.ts, now).0]
              && updates == sent + if after[key].signals != before[key].signals || after[key].state != crossed.state
                                   then [key] else []
  {
    assert (events + [e])[..|events|] == events;
    var before := CrossAll(sessions, camera, events, now).0;
    var key := (camera, e.trackId);
    if key in before {
      UpdateSent(before[key], e.zone, e.kind, e.ts, now);
    }
  }

  lemma UpdateSent(s: Session, zone: Zone, kind: Crossing, ts: real, now: real)
    requires Cooled(s) && now >= 30.0
    ensures var (t, sent, _) := Cross(s, zone, kind, ts, now);
            sent <==> t.signals != s.signals || t.state != HandleCrossing(s, zone, kind, ts, now).0.state
  {
    hide HandleCrossing, StateChanged, Cross;
    TimeOnlyWhenQuiet(s, zone, kind, ts, now);
    var first := HandleCrossing(s, zone, kind, ts, now).0;
    CrossedCooled(s, zone, kind, ts, now);
    TimeExactly(first, now);
  }

  lemma CrossedCooled(s: Session, zone: Zone, kind: Crossing, ts: real, now: real)
    requires Cooled(s) && now >= 30.0
    ensures Cooled(HandleCrossing(s, zone, kind, ts, now).0)
  {
    hide Entered, Left;
    EntryExactly(s, zone, ts, now);
    ExitExactly(s, zone, ts, now);
  }
}
