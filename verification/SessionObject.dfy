/** The `TransactionSessionState` object, with the handlers that work on one session. */
module SessionObject {
  import opened Transactions

  class TransactionSessionState {
    var state: VisitorState
    var score: int
    var probability: real
    var level: Level
    var signals: set<Signal>
    const enteredAt: real
    var lastSeen: real
    var zoneEntry: map<string, real>
    var zonesVisited: seq<string>
    var cooldowns: map<Signal, real>
    var lastPersisted: Level

    constructor (enteredAt: real, lastSeen: real)
      ensures Value() == NewSession(enteredAt, lastSeen)
    {
      state, score, probability, level, signals := ENTERED_STORE, 0, 0.0, UNLIKELY, {};
      this.enteredAt, this.lastSeen := enteredAt, lastSeen;
      zoneEntry, zonesVisited, cooldowns, lastPersisted := map[], [], map[], UNLIKELY;
    }

    function Value(): Session
      reads this
    {
      Session(state, score, probability, level, signals, enteredAt, lastSeen, zoneEntry, zonesVisited, cooldowns,
          lastPersisted)
    }

    /** `transition_to`. */
    method Transition(to: VisitorState) returns (ok: bool)
      modifies this
      ensures ok == Allowed(old(state), to) && Value() == TransitionTo(old(Value()), to)
    {
      ok := Allowed(state, to);
      if ok {
        state := to;
      }
    }

    /** `add_signal`. */
    method Add(signal: Signal, now: real) returns (added: bool)
      modifies this
      ensures added == Takes(old(Value()), signal, now) && Value() == AddSignal(old(Value()), signal, now)
      ensures added ==> signal !in old(signals)
    {
      if signal in signals {
        return false;
      }
      var last := if signal in cooldowns then cooldowns[signal] else 0.0;
      if now - last < 30.0 {
        return false;
      }
      var sum := score + Score(signal);
      score := if sum < MAX_SCORE then sum else MAX_SCORE;
      signals := signals + {signal};
      cooldowns := cooldowns[signal := now];
      var (p, l) := Confidence(score);
      probability, level := p, l;
      added := true;
    }

    /** A signal and the transition that goes with it, if a condition holds. */
    method AddAndMove(condition: bool, signal: Signal, to: VisitorState, now: real) returns (added: bool)
      modifies this
      ensures Value() == Moved(Signalled(old(Value()), condition, signal, now), condition, to)
      ensures added == (condition && Takes(old(Value()), signal, now))
    {
      added := false;
      if condition {
        added := Add(signal, now);
        var moved := Transition(to);
      }
    }

    method AddIf(condition: bool, signal: Signal, now: real) returns (added: bool)
      modifies this
      ensures Value() == Signalled(old(Value()), condition, signal, now)
      ensures added == (condition && Takes(old(Value()), signal, now))
    {
      added := false;
      if condition {
        added := Add(signal, now);
      }
    }

    method MoveIf(condition: bool, to: VisitorState)
      modifies this
      ensures Value() == Moved(old(Value()), condition, to)
    {
      if condition {
        var moved := Transition(to);
      }
    }

    method NoteEntry(zone: Zone, ts: real)
      modifies this
      ensures var s := old(Value());
              Value() == s.(zoneEntry := s.zoneEntry[zone.name := ts],
                zonesVisited := if zone.name in s.zonesVisited then s.zonesVisited else s.zonesVisited + [zone.name])
    {
      zoneEntry := zoneEntry[zone.name := ts];
      if zone.name !in zonesVisited {
        zonesVisited := zonesVisited + [zone.name];
      }
    }

    method Enter(zone: Zone, ts: real, now: real) returns (fired: bool)
      modifies this
      ensures Value() == Entered(old(Value()), zone, ts, now) && fired == (Value().signals != old(Value()).signals)
    {
      hide Signalled, Moved, Value, Takes;
      ghost var s := Value();
      NoteEntry(zone, ts);
      ghost var s0 := Value();
      var checkout := AddAndMove(zone.checkout, CHECKOUT_ZONE, AT_CHECKOUT, now);
      ghost var s1 := Value();
      var card := AddAndMove(zone.payment, CARD, PAYMENT_INTERACTION, now);
      ghost var s2 := Value();
      var upi := AddAndMove(zone.upi, UPI, PAYMENT_INTERACTION, now);
      ghost var s3 := Value();
      var cash := AddAndMove(zone.cash, CASH, PAYMENT_INTERACTION, now);
      ghost var s4 := Value();
      MoveIf(zone.queue, WAITING_IN_QUEUE);
      fired := checkout || card || upi || cash;
      Counts(s0, zone.checkout, CHECKOUT_ZONE, AT_CHECKOUT, now);
      Counts(s1, zone.payment, CARD, PAYMENT_INTERACTION, now);
      Counts(s2, zone.upi, UPI, PAYMENT_INTERACTION, now);
      Counts(s3, zone.cash, CASH, PAYMENT_INTERACTION, now);
      MoveKeepsSignals(s4, zone.queue, WAITING_IN_QUEUE);
    }

    /** Takes the entry time of a zone out of the record, as a dwell. */
    method TakeEntry(zone: Zone, ts: real) returns (dwell: real)
      modifies this
      ensures Value() == old(Value()).(zoneEntry := old(Value()).zoneEntry - {zone.name})
      ensures dwell == Dwell(old(Value()), zone, ts)
    {
      dwell := 0.0;
      if zone.name in zoneEntry {
        if zoneEntry[zone.name] != 0.0 {
          dwell := ts - zoneEntry[zone.name];
        }
        zoneEntry := zoneEntry - {zone.name};
      }
      assert zoneEntry == old(zoneEntry) - {zone.name};
    }

    method Leave(zone: Zone, ts: real, now: real) returns (fired: bool)
      modifies this
      ensures Value() == Left(old(Value()), zone, ts, now) && fired == (Value().signals != old(Value()).signals)
    {
      hide Signalled, Moved, Value, Takes, Dwell;
      ghost var s := Value();
      var dwell := TakeEntry(zone, ts);
      ghost var s0 := Value();
      var queue := AddIf(zone.queue && dwell > 20.0, QUEUE_COMPLETED, now);
      ghost var s1 := Value();
      var cash := AddIf(zone.checkout && dwell > 90.0, CASH, now);
      ghost var s2 := Value();
      var card := AddIf(zone.checkout && 30.0 <= dwell <= 90.0, CARD, now);
      ghost var s3 := Value();
      var upi := AddIf(zone.checkout && 10.0 <= dwell < 30.0, UPI, now);
      ghost var s4 := Value();
      MoveIf(zone.checkout && dwell >= 10.0, PURCHASE_COMPLETED);
      ghost var s5 := Value();
      var brief := AddAndMove(zone.payment && dwell > 10.0, CARD, PURCHASE_COMPLETED, now);
      ghost var s6 := Value();
      var scan := AddAndMove(zone.upi && dwell > 5.0, UPI, PURCHASE_COMPLETED, now);
      fired := queue || cash || card || upi || brief || scan;
      CountsOne(s0, zone.queue && dwell > 20.0, QUEUE_COMPLETED, now);
      CountsOne(s1, zone.checkout && dwell > 90.0, CASH, now);
      CountsOne(s2, zone.checkout && 30.0 <= dwell <= 90.0, CARD, now);
      CountsOne(s3, zone.checkout && 10.0 <= dwell < 30.0, UPI, now);
      MoveKeepsSignals(s4, zone.checkout && dwell >= 10.0, PURCHASE_COMPLETED);
      Counts(s5, zone.payment && dwell > 10.0, CARD, PURCHASE_COMPLETED, now);
      Counts(s6, zone.upi && dwell > 5.0, UPI, PURCHASE_COMPLETED, now);
    }

    method Persist(fired: bool) returns (predictions: seq<Level>)
      modifies this
      ensures (Value(), predictions) == Persisted(old(Value()), fired)
    {
      predictions := [];
      if fired && level != lastPersisted {
        predictions := [level];
        lastPersisted := level;
      }
    }

    /** `_handle_zone_crossing`. */
    method HandleZoneCrossing(zone: Zone, kind: Crossing, ts: real, now: real)
        returns (fired: bool, predictions: seq<Level>)
      modifies this
      ensures (Value(), fired, predictions) == HandleCrossing(old(Value()), zone, kind, ts, now)
    {
      hide Entered, Left, Persisted;
      fired := false;
      match kind {
        case Entry => fired := Enter(zone, ts, now);
        case Exit => fired := Leave(zone, ts, now);
        case Other =>
      }
      predictions := Persist(fired);
    }

    /** One signal that time fires, if it is due. */
    method FireTimed(due: bool, signal: Signal, now: real) returns (fires: bool, predictions: seq<Level>)
      modifies this
      ensures fires == (due && Takes(old(Value()), signal, now))
      ensures (Value(), predictions) == Persisted(Signalled(old(Value()), fires, signal, now), fires)
    {
      hide Confidence, Score;
      fires, predictions := false, [];
      if due {
        fires := Add(signal, now);
        if fires {
          predictions := Persist(true);
        }
      }
    }

    /** `_state_changed`. */
    method LookAtTime(now: real) returns (changed: bool, predictions: seq<Level>)
      modifies this
      ensures (Value(), changed, predictions) == StateChanged(old(Value()), now)
    {
      hide Signalled, Moved, Persisted, Takes;
      var dwell := now - enteredAt;
      var shops := state == ENTERED_STORE && dwell > 10.0;
      MoveIf(shops, SHOPPING);
      KeepsEntered(old(Value()), shops);
      var browses, p1 := FireTimed(dwell > 180.0, BROWSING, now);
      var stays, p2 := FireTimed(dwell > 480.0, EXTENDED_DWELL, now);
      MoveIf(stays && state == SHOPPING, MOVING_TO_CHECKOUT);
      changed, predictions := shops || browses || stays, p1 + p2;
    }
  }

  /** A signal fires exactly when there is one more of them afterwards. */
  lemma CountsOne(s: Session, condition: bool, signal: Signal, now: real)
    ensures var t := Signalled(s, condition, signal, now).signals;
            if condition && Takes(s, signal, now) then |t| == |s.signals| + 1 else t == s.signals
  {}

  lemma Counts(s: Session, condition: bool, signal: Signal, to: VisitorState, now: real)
    ensures var t := Moved(Signalled(s, condition, signal, now), condition, to).signals;
            if condition && Takes(s, signal, now) then |t| == |s.signals| + 1 else t == s.signals
  {
    CountsOne(s, condition, signal, now);
  }

  lemma MoveKeepsSignals(s: Session, condition: bool, to: VisitorState)
    ensures Moved(s, condition, to).signals == s.signals
  {}

  lemma KeepsEntered(s: Session, condition: bool)
    ensures Moved(s, condition, SHOPPING).enteredAt == s.enteredAt
  {}
}
