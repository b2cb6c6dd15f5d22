/** Exactly what each kind of crossing does to a session: which signals it
    records, which state it leads to, and what is remembered and persisted. */
module SessionSignals {
  import opened Transactions

  // ----- single steps

  lemma Recorded(s: Session, condition: bool, signal: Signal, now: real)
    requires Cooled(s) && now >= 30.0
    ensures var t := Signalled(s, condition, signal, now);
            && Cooled(t) && t.signals == s.signals + (if condition then {signal} else {})
            && t.state == s.state && t.enteredAt == s.enteredAt && t.lastPersisted == s.lastPersisted
            && t.zoneEntry == s.zoneEntry && t.zonesVisited == s.zonesVisited && t.lastSeen == s.lastSeen
  {
    hide Confidence;
    CooldownRejectsExactlyWhen(s, signal, now);
  }

  lemma Stepped(s: Session, condition: bool, to: VisitorState)
    requires Cooled(s)
    ensures var t := Moved(s, condition, to);
            && Cooled(t) && t == s.(state := t.state)
            && t.state == if condition && (s.state, to) in TRANSITIONS then to else s.state
  {
    TransitionsAre(s.state, to);
  }

  /** The forward moves there are. */
  const TRANSITIONS: set<(VisitorState, VisitorState)> := {
    (ENTERED_STORE, SHOPPING), (ENTERED_STORE, MOVING_TO_CHECKOUT),
    (SHOPPING, MOVING_TO_CHECKOUT), (SHOPPING, EXITED_STORE),
    (MOVING_TO_CHECKOUT, WAITING_IN_QUEUE), (MOVING_TO_CHECKOUT, AT_CHECKOUT),
    (WAITING_IN_QUEUE, AT_CHECKOUT),
    (AT_CHECKOUT, PAYMENT_INTERACTION), (AT_CHECKOUT, EXITED_STORE),
    (PAYMENT_INTERACTION, PURCHASE_COMPLETED), (PAYMENT_INTERACTION, EXITED_STORE),
    (PURCHASE_COMPLETED, EXITED_STORE)}

  /** A transition is made exactly when it is one of them. */
  lemma TransitionsAre(from: VisitorState, to: VisitorState)
    ensures Allowed(from, to) <==> (from, to) in TRANSITIONS
  {}

  /** What each signal is worth, on a session that has none. */
  lemma ScoreOfEach(signal: Signal, enteredAt: real, lastSeen: real, now: real)
    requires now >= 30.0
    ensures AddSignal(NewSession(enteredAt, lastSeen), signal, now).score ==
            match signal
            case CHECKOUT_ZONE => 20
            case QUEUE_COMPLETED => 15
            case CASH => 25
            case CARD => 25
            case UPI => 20
            case BROWSING => 10
            case EXTENDED_DWELL => 30
  {
    hide Confidence;
  }

  /** The levels, in points: HIGH from 90, MEDIUM from 63, LOW from 37. */
  lemma LevelOfScore(score: int)
    ensures Confidence(score).1 ==
            if score >= 90 then HIGH else if score >= 63 then MEDIUM else if score >= 37 then LOW else UNLIKELY
    ensures score <= 105 ==> Confidence(score).0 * 105.0 == score as real
    ensures score > 105 ==> Confidence(score).0 == 1.0
  {}

  // ----- entering a zone

  /** Everything but the signals, what follows from them, and the state. */
  ghost predicate Alike(s: Session, t: Session) {
    && t.enteredAt == s.enteredAt && t.lastPersisted == s.lastPersisted && t.lastSeen == s.lastSeen
    && t.zoneEntry == s.zoneEntry && t.zonesVisited == s.zonesVisited && Cooled(t)
  }

  /** A state that may move on. */
  function OnTo(state: VisitorState, condition: bool, to: VisitorState): VisitorState {
    if condition && (state, to) in TRANSITIONS then to else state
  }

  /** A signal and the move that goes with it. */
  lemma SignalAndMove(s: Session, condition: bool, signal: Signal, to: VisitorState, now: real)
    requires Cooled(s) && now >= 30.0
    ensures var t := Moved(Signalled(s, condition, signal, now), condition, to);
            && Alike(s, t) && t.signals == s.signals + (if condition then {signal} else {})
            && t.state == OnTo(s.state, condition, to)
  {
    hide Signalled, Moved;
    Recorded(s, condition, signal, now);
    Stepped(Signalled(s, condition, signal, now), condition, to);
  }

  lemma EntryMoves(state: VisitorState, zone: Zone)
    ensures var c := OnTo(state, zone.checkout, AT_CHECKOUT);
            var p := OnTo(c, zone.payment, PAYMENT_INTERACTION);
            var m := OnTo(OnTo(p, zone.upi, PAYMENT_INTERACTION), zone.cash, PAYMENT_INTERACTION);
            OnTo(m, zone.queue, WAITING_IN_QUEUE) == EntryState(state, zone)
  {}

  /** Entering records the signal of every kind the zone has, and moves along:
      to the checkout from the way or the queue, to payment from the checkout,
      and into the queue from the way. */
  lemma EntryExactly(s: Session, zone: Zone, ts: real, now: real)
    requires Cooled(s) && now >= 30.0
    ensures var t := Entered(s, zone, ts, now);
            && t.signals == s.signals
                 + (if zone.checkout then {CHECKOUT_ZONE} else {}) + (if zone.payment then {CARD} else {})
                 + (if zone.upi then {UPI} else {}) + (if zone.cash then {CASH} else {})
            && t.zoneEntry == s.zoneEntry[zone.name := ts]
            && t.zonesVisited == s.zonesVisited + (if zone.name in s.zonesVisited then [] else [zone.name])
            && Cooled(t) && t.enteredAt == s.enteredAt && t.lastPersisted == s.lastPersisted && t.lastSeen == s.lastSeen
            && t.state == EntryState(s.state, zone)
  {
    var s0 := s.(zoneEntry := s.zoneEntry[zone.name := ts],
                 zonesVisited := if zone.name in s.zonesVisited then s.zonesVisited else s.zonesVisited + [zone.name]);
    assert s.zonesVisited + [] == s.zonesVisited;
    assert Cooled(s0);
    hide Signalled, Moved, OnTo, EntryState, Cooled;
    SignalAndMove(s0, zone.checkout, CHECKOUT_ZONE, AT_CHECKOUT, now);
    var s1 := Moved(Signalled(s0, zone.checkout, CHECKOUT_ZONE, now), zone.checkout, AT_CHECKOUT);
    SignalAndMove(s1, zone.payment, CARD, PAYMENT_INTERACTION, now);
    var s2 := Moved(Signalled(s1, zone.payment, CARD, now), zone.payment, PAYMENT_INTERACTION);
    SignalAndMove(s2, zone.upi, UPI, PAYMENT_INTERACTION, now);
    var s3 := Moved(Signalled(s2, zone.upi, UPI, now), zone.upi, PAYMENT_INTERACTION);
    SignalAndMove(s3, zone.cash, CASH, PAYMENT_INTERACTION, now);
    var s4 := Moved(Signalled(s3, zone.cash, CASH, now), zone.cash, PAYMENT_INTERACTION);
    SteppedAlike(s4, zone.queue, WAITING_IN_QUEUE);
    EntryMoves(s.state, zone);
  }

  lemma SteppedAlike(s: Session, condition: bool, to: VisitorState)
    requires Cooled(s)
    ensures var t := Moved(s, condition, to);
            Alike(s, t) && t.signals == s.signals && t.state == OnTo(s.state, condition, to)
  {
    hide Moved;
    Stepped(s, condition, to);
  }

  /** Where a visitor is after entering a zone. */
  function EntryState(state: VisitorState, zone: Zone): VisitorState {
    var pays := zone.payment || zone.upi || zone.cash;
    match state
    case MOVING_TO_CHECKOUT =>
      if zone.checkout then (if pays then PAYMENT_INTERACTION else AT_CHECKOUT)
      else if zone.queue then WAITING_IN_QUEUE else state
    case WAITING_IN_QUEUE => if zone.checkout then (if pays then PAYMENT_INTERACTION else AT_CHECKOUT) else state
    case AT_CHECKOUT => if pays then PAYMENT_INTERACTION else state
    case _ => state
  }

  // ----- leaving a zone

  lemma CheckoutExitExactly(s: Session, zone: Zone, dwell: real, now: real)
    requires Cooled(s) && now >= 30.0
    ensures var t := LeftCheckout(s, zone, dwell, now);
            && t.signals == s.signals
                 + (if zone.queue && dwell > 20.0 then {QUEUE_COMPLETED} else {})
                 + (if zone.checkout && dwell > 90.0 then {CASH} else {})
                 + (if zone.checkout && 30.0 <= dwell <= 90.0 then {CARD} else {})
                 + (if zone.checkout && 10.0 <= dwell < 30.0 then {UPI} else {})
            && Cooled(t) && t.enteredAt == s.enteredAt && t.lastPersisted == s.lastPersisted
            && t.zoneEntry == s.zoneEntry && t.zonesVisited == s.zonesVisited && t.lastSeen == s.lastSeen
  {
    hide Signalled, Moved;
    var s1 := Signalled(s, zone.queue && dwell > 20.0, QUEUE_COMPLETED, now);
    var s2 := Signalled(s1, zone.checkout && dwell > 90.0, CASH, now);
    var s3 := Signalled(s2, zone.checkout && 30.0 <= dwell <= 90.0, CARD, now);
    var s4 := Signalled(s3, zone.checkout && 10.0 <= dwell < 30.0, UPI, now);
    Recorded(s, zone.queue && dwell > 20.0, QUEUE_COMPLETED, now);
    Recorded(s1, zone.checkout && dwell > 90.0, CASH, now);
    Recorded(s2, zone.checkout && 30.0 <= dwell <= 90.0, CARD, now);
    Recorded(s3, zone.checkout && 10.0 <= dwell < 30.0, UPI, now);
    Stepped(s4, zone.checkout && dwell >= 10.0, PURCHASE_COMPLETED);
  }

  /** Leaving records the payment the stay is taken for: queue over 20 s, cash
      for a checkout over 90 s, card from 30 to 90 s or at a terminal over 10 s,
      UPI from 10 to 30 s or at a QR code over 5 s. A stay whose beginning is not
      known, or was at time 0, counts as 0 s. */
  lemma ExitExactly(s: Session, zone: Zone, ts: real, now: real)
    requires Cooled(s) && now >= 30.0
    ensures var t := Left(s, zone, ts, now);
            var known := zone.name in s.zoneEntry && s.zoneEntry[zone.name] != 0.0;
            var dwell := if known then ts - s.zoneEntry[zone.name] else 0.0;
            && t.signals == s.signals
                 + (if zone.queue && dwell > 20.0 then {QUEUE_COMPLETED} else {})
                 + (if zone.checkout && dwell > 90.0 then {CASH} else {})
                 + (if (zone.checkout && 30.0 <= dwell <= 90.0) || (zone.payment && dwell > 10.0) then {CARD} else {})
                 + (if (zone.checkout && 10.0 <= dwell < 30.0) || (zone.upi && dwell > 5.0) then {UPI} else {})
            && t.zoneEntry == s.zoneEntry - {zone.name} && t.zonesVisited == s.zonesVisited
            && Cooled(t) && t.enteredAt == s.enteredAt && t.lastPersisted == s.lastPersisted && t.lastSeen == s.lastSeen
  {
    hide Signalled, Moved, LeftCheckout;
    var dwell := Dwell(s, zone, ts);
    var s0 := s.(zoneEntry := s.zoneEntry - {zone.name});
    CheckoutExitExactly(s0, zone, dwell, now);
    var s5 := LeftCheckout(s0, zone, dwell, now);
    var c := Signalled(s5, zone.payment && dwell > 10.0, CARD, now);
    Recorded(s5, zone.payment && dwell > 10.0, CARD, now);
    Stepped(c, zone.payment && dwell > 10.0, PURCHASE_COMPLETED);
    var s6 := Moved(c, zone.payment && dwell > 10.0, PURCHASE_COMPLETED);
    Recorded(s6, zone.upi && dwell > 5.0, UPI, now);
    Stepped(Signalled(s6, zone.upi && dwell > 5.0, UPI, now), zone.upi && dwell > 5.0, PURCHASE_COMPLETED);
  }

  // ----- time

  /** What time alone does: shopping after 10 s, browsing after 180 s, long dwell
      after 480 s with the move to the checkout when it is new. */
  lemma TimeExactly(s: Session, now: real)
    requires Cooled(s) && now >= 30.0
    ensures var (t, changed, predictions) := StateChanged(s, now);
            var dwell := now - s.enteredAt;
            var arrived := if s.state == ENTERED_STORE && dwell > 10.0 then SHOPPING else s.state;
            var stays := dwell > 480.0 && EXTENDED_DWELL !in s.signals;
            && t.signals == s.signals + (if dwell > 180.0 then {BROWSING} else {})
                                      + (if dwell > 480.0 then {EXTENDED_DWELL} else {})
            && t.state == (if stays && arrived == SHOPPING then MOVING_TO_CHECKOUT else arrived)
            && (changed <==> arrived != s.state || t.signals != s.signals)
            && Cooled(t) && t.enteredAt == s.enteredAt && t.lastSeen == s.lastSeen
            && t.zoneEntry == s.zoneEntry && t.zonesVisited == s.zonesVisited
  {
    hide Signalled, Moved, Takes;
    var dwell := now - s.enteredAt;
    var shops := s.state == ENTERED_STORE && dwell > 10.0;
    Stepped(s, shops, SHOPPING);
    var s0 := Moved(s, shops, SHOPPING);
    CooldownRejectsExactlyWhen(s0, BROWSING, now);
    var browses := dwell > 180.0 && Takes(s0, BROWSING, now);
    Recorded(s0, browses, BROWSING, now);
    var s1 := Persisted(Signalled(s0, browses, BROWSING, now), browses).0;
    CooldownRejectsExactlyWhen(s1, EXTENDED_DWELL, now);
    var stays := dwell > 480.0 && Takes(s1, EXTENDED_DWELL, now);
    Recorded(s1, stays, EXTENDED_DWELL, now);
    var s2 := Persisted(Signalled(s1, stays, EXTENDED_DWELL, now), stays).0;
    Stepped(s2, stays && s2.state == SHOPPING, MOVING_TO_CHECKOUT);
  }

  // ----- what is persisted

  /** A crossing fires exactly when it records a signal that is new, and a
      prediction is persisted, at the level reached, exactly when it fires and
      that is not the level persisted last. A crossing that is neither an entry
      nor an exit does nothing. */
  lemma PersistedExactly(s: Session, zone: Zone, kind: Crossing, ts: real, now: real)
    requires Cooled(s) && now >= 30.0
    ensures var (t, fired, predictions) := HandleCrossing(s, zone, kind, ts, now);
            && (fired <==> t.signals != s.signals)
            && predictions == (if fired && t.level != s.lastPersisted then [t.level] else [])
            && t.lastPersisted == (if fired then t.level else s.lastPersisted)
            && (kind.Other? ==> t == s && !fired)
  {
    hide Confidence, Entered, Left;
    EntryExactly(s, zone, ts, now);
    ExitExactly(s, zone, ts, now);
  }

  /** Time is looked at after a crossing exactly when the crossing recorded
      nothing new. */
  lemma TimeOnlyWhenQuiet(s: Session, zone: Zone, kind: Crossing, ts: real, now: real)
    requires Cooled(s) && now >= 30.0
    ensures var (first, fired, p1) := HandleCrossing(s, zone, kind, ts, now);
            var (second, changed, p2) := StateChanged(first, now);
            Cross(s, zone, kind, ts, now) ==
            if first.signals != s.signals then (first, true, p1) else (second, changed, p1 + p2)
  {
    hide Confidence, Entered, Left, StateChanged;
    PersistedExactly(s, zone, kind, ts, now);
  }
}
