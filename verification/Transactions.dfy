/** One visitor's transaction session on values: the forward-only state machine
    and the saturating score beside it. */
module Transactions {

  datatype VisitorState =
    | ENTERED_STORE | SHOPPING | MOVING_TO_CHECKOUT | WAITING_IN_QUEUE
    | AT_CHECKOUT | PAYMENT_INTERACTION | PURCHASE_COMPLETED | EXITED_STORE

  datatype Signal = CHECKOUT_ZONE | QUEUE_COMPLETED | CASH | CARD | UPI | BROWSING | EXTENDED_DWELL

  datatype Level = UNLIKELY | LOW | MEDIUM | HIGH

  const MAX_SCORE := 105

  function Score(s: Signal): nat {
    match s
    case CHECKOUT_ZONE => 20
    case QUEUE_COMPLETED => 15
    case CASH => 25
    case CARD => 25
    case UPI => 20
    case BROWSING => 10
    case EXTENDED_DWELL => 30
  }

  /** `_compute_confidence`. */
  function Confidence(score: int): (real, Level) {
    var p := if score as real / MAX_SCORE as real < 1.0 then score as real / MAX_SCORE as real else 1.0;
    (p, if p >= 0.85 then HIGH else if p >= 0.60 then MEDIUM else if p >= 0.35 then LOW else UNLIKELY)
  }

  /** The table of forward transitions. */
  predicate Allowed(from: VisitorState, to: VisitorState) {
    match from
    case ENTERED_STORE => to == SHOPPING || to == MOVING_TO_CHECKOUT
    case SHOPPING => to == MOVING_TO_CHECKOUT || to == EXITED_STORE
    case MOVING_TO_CHECKOUT => to == WAITING_IN_QUEUE || to == AT_CHECKOUT
    case WAITING_IN_QUEUE => to == AT_CHECKOUT
    case AT_CHECKOUT => to == PAYMENT_INTERACTION || to == EXITED_STORE
    case PAYMENT_INTERACTION => to == PURCHASE_COMPLETED || to == EXITED_STORE
    case PURCHASE_COMPLETED => to == EXITED_STORE
    case EXITED_STORE => false
  }

  /** The fields of a `TransactionSessionState` that change. enteredAt is what
      `entered_at.timestamp()` gives, whatever the time zone makes of it. */
  datatype Session = Session(
    state: VisitorState, score: int, probability: real, level: Level, signals: set<Signal>,
    enteredAt: real, lastSeen: real, zoneEntry: map<string, real>, zonesVisited: seq<string>,
    cooldowns: map<Signal, real>, lastPersisted: Level)

  function NewSession(enteredAt: real, lastSeen: real): Session {
    Session(ENTERED_STORE, 0, 0.0, UNLIKELY, {}, enteredAt, lastSeen, map[], [], map[], UNLIKELY)
  }

  /** A zone by what its name and type are taken to mean; the tests overlap. */
  datatype Zone = Zone(name: string, checkout: bool, queue: bool, payment: bool, upi: bool, cash: bool)

  datatype Crossing = Entry | Exit | Other

  // ----- the operations of a session

  function TransitionTo(s: Session, to: VisitorState): Session {
    if Allowed(s.state, to) then s.(state := to) else s
  }

  /** Whether `add_signal` takes a signal at time now. */
  predicate Takes(s: Session, signal: Signal, now: real) {
    signal !in s.signals && now - (if signal in s.cooldowns then s.cooldowns[signal] else 0.0) >= 30.0
  }

  function AddSignal(s: Session, signal: Signal, now: real): Session {
    if !Takes(s, signal, now) then s
    else
      var sum := s.score + Score(signal);
      var score := if sum < MAX_SCORE then sum else MAX_SCORE;
      s.(score := score, signals := s.signals + {signal}, cooldowns := s.cooldowns[signal := now],
         probability := Confidence(score).0, level := Confidence(score).1)
  }

  /** A signal if a condition holds; a transition if a condition holds. */
  function Signalled(s: Session, condition: bool, signal: Signal, now: real): Session {
    if condition then AddSignal(s, signal, now) else s
  }

  function Moved(s: Session, condition: bool, to: VisitorState): Session {
    if condition then TransitionTo(s, to) else s
  }

  /** The entry branch of `_handle_zone_crossing`. */
  function Entered(s: Session, zone: Zone, ts: real, now: real): Session {
    var s0 := s.(zoneEntry := s.zoneEntry[zone.name := ts],
                 zonesVisited := if zone.name in s.zonesVisited then s.zonesVisited else s.zonesVisited + [zone.name]);
    var s1 := Moved(Signalled(s0, zone.checkout, CHECKOUT_ZONE, now), zone.checkout, AT_CHECKOUT);
    var s2 := Moved(Signalled(s1, zone.payment, CARD, now), zone.payment, PAYMENT_INTERACTION);
    var s3 := Moved(Signalled(s2, zone.upi, UPI, now), zone.upi, PAYMENT_INTERACTION);
    var s4 := Moved(Signalled(s3, zone.cash, CASH, now), zone.cash, PAYMENT_INTERACTION);
    Moved(s4, zone.queue, WAITING_IN_QUEUE)
  }

  /** How long a visitor was in a zone; 0 when the entry is not known (or was at
      time 0). */
  function Dwell(s: Session, zone: Zone, ts: real): real {
    if zone.name in s.zoneEntry && s.zoneEntry[zone.name] != 0.0 then ts - s.zoneEntry[zone.name] else 0.0
  }

  /** Leaving the queue, or the checkout: the payment a checkout visit is taken
      for depends on how long it was. */
  function LeftCheckout(s: Session, zone: Zone, dwell: real, now: real): Session {
    var s1 := Signalled(s, zone.queue && dwell > 20.0, QUEUE_COMPLETED, now);
    var s2 := Signalled(s1, zone.checkout && dwell > 90.0, CASH, now);
    var s3 := Signalled(s2, zone.checkout && 30.0 <= dwell <= 90.0, CARD, now);
    var s4 := Signalled(s3, zone.checkout && 10.0 <= dwell < 30.0, UPI, now);
    Moved(s4, zone.checkout && dwell >= 10.0, PURCHASE_COMPLETED)
  }

  /** The exit branch. */
  function Left(s: Session, zone: Zone, ts: real, now: real): Session {
    var dwell := Dwell(s, zone, ts);
    var s5 := LeftCheckout(s.(zoneEntry := s.zoneEntry - {zone.name}), zone, dwell, now);
    var s6 := Moved(Signalled(s5, zone.payment && dwell > 10.0, CARD, now),
                    zone.payment && dwell > 10.0, PURCHASE_COMPLETED);
    Moved(Signalled(s6, zone.upi && dwell > 5.0, UPI, now), zone.upi && dwell > 5.0, PURCHASE_COMPLETED)
  }

  /** What a session has persisted: nothing, or one prediction at a level. */
  function Persisted(s: Session, fired: bool): (Session, seq<Level>) {
    if fired && s.level != s.lastPersisted then (s.(lastPersisted := s.level), [s.level]) else (s, [])
  }

  /** `_handle_zone_crossing`: the session, whether a signal fired, and the
      prediction persisted if any. */
  function HandleCrossing(s: Session, zone: Zone, kind: Crossing, ts: real, now: real): (Session, bool, seq<Level>) {
    var moved := match kind
      case Entry => Entered(s, zone, ts, now)
      case Exit => Left(s, zone, ts, now)
      case Other => s;
    var fired := moved.signals != s.signals;
    var (after, predictions) := Persisted(moved, fired);
    (after, fired, predictions)
  }

  /** `_state_changed`: what time alone brings about. */
  function StateChanged(s: Session, now: real): (Session, bool, seq<Level>) {
    var dwell := now - s.enteredAt;
    var shops := s.state == ENTERED_STORE && dwell > 10.0;
    var s0 := Moved(s, shops, SHOPPING);
    var browses := dwell > 180.0 && Takes(s0, BROWSING, now);
    var (s1, p1) := Persisted(Signalled(s0, browses, BROWSING, now), browses);
    var stays := dwell > 480.0 && Takes(s1, EXTENDED_DWELL, now);
    var (s2, p2) := Persisted(Signalled(s1, stays, EXTENDED_DWELL, now), stays);
    (Moved(s2, stays && s2.state == SHOPPING, MOVING_TO_CHECKOUT), shops || browses || stays, p1 + p2)
  }

  /** One crossing as `process_frame` treats it: time is looked at only when no
      signal fired. */
  function Cross(s: Session, zone: Zone, kind: Crossing, ts: real, now: real): (Session, bool, seq<Level>) {
    var (s1, fired, p1) := HandleCrossing(s, zone, kind, ts, now);
    if fired then (s1, true, p1)
    else
      var (s2, changed, p2) := StateChanged(s1, now);
      (s2, changed, p1 + p2)
  }

  // ----- what holds of every live session

  function If(b: bool, n: nat): nat {
    if b then n else 0
  }

  /** The sum of the scores of a set of signals. */
  function Sum(signals: set<Signal>): nat {
    If(CHECKOUT_ZONE in signals, 20) + If(QUEUE_COMPLETED in signals, 15) + If(CASH in signals, 25)
    + If(CARD in signals, 25) + If(UPI in signals, 20) + If(BROWSING in signals, 10) + If(EXTENDED_DWELL in signals, 30)
  }

  function Min(a: int, b: int): int {
    if a < b then a else b
  }

  function Rank(s: VisitorState): nat {
    match s
    case ENTERED_STORE => 0
    case SHOPPING => 1
    case MOVING_TO_CHECKOUT => 2
    case WAITING_IN_QUEUE => 3
    case AT_CHECKOUT => 4
    case PAYMENT_INTERACTION => 5
    case PURCHASE_COMPLETED => 6
    case EXITED_STORE => 7
  }

  function LevelRank(l: Level): nat {
    match l
    case UNLIKELY => 0
    case LOW => 1
    case MEDIUM => 2
    case HIGH => 3
  }

  /** The score is the saturated sum of the signals, whatever order they came
      in; the confidence follows from it; only signals that were detected have a
      cooldown. */
  ghost predicate Scored(s: Session) {
    && s.score == Min(MAX_SCORE, Sum(s.signals))
    && s.level == Confidence(s.score).1 && s.probability == Confidence(s.score).0
    && Cooled(s)
  }

  ghost predicate Cooled(s: Session) {
    forall signal :: signal in s.cooldowns ==> signal in s.signals
  }

  /** How far a session has come bounds its signals from below. */
  ghost predicate Earned(s: Session) {
    && s.state != EXITED_STORE
    && (Rank(s.state) >= 2 ==> BROWSING in s.signals && EXTENDED_DWELL in s.signals)
    && (Rank(s.state) >= 4 ==> CHECKOUT_ZONE in s.signals)
    && (Rank(s.state) >= 5 ==> CASH in s.signals || CARD in s.signals || UPI in s.signals)
  }

  ghost predicate Live(s: Session) {
    Scored(s) && Earned(s) && LevelRank(s.lastPersisted) <= LevelRank(s.level)
  }

  /** One operation takes a session forward. */
  ghost predicate Forward(a: Session, b: Session) {
    && Rank(a.state) <= Rank(b.state) && a.signals <= b.signals
    && LevelRank(a.level) <= LevelRank(b.level) && a.enteredAt == b.enteredAt
  }

  lemma LevelGrows(a: int, b: int)
    requires a <= b
    ensures LevelRank(Confidence(a).1) <= LevelRank(Confidence(b).1)
  {}

  lemma SumAdds(signals: set<Signal>, signal: Signal)
    requires signal !in signals
    ensures Sum(signals + {signal}) == Sum(signals) + Score(signal)
  {
    match signal {
      case CHECKOUT_ZONE =>
      case QUEUE_COMPLETED =>
      case CASH =>
      case CARD =>
      case UPI =>
      case BROWSING =>
      case EXTENDED_DWELL =>
    }
  }

  /** With a clock past 30 the cooldown rejects nothing that the detected set
      does not, and the score stays the saturated sum. */
  lemma SignalTaken(s: Session, signal: Signal, now: real)
    requires Scored(s) && now >= 30.0
    ensures Takes(s, signal, now) <==> signal !in s.signals
    ensures var t := AddSignal(s, signal, now);
            Scored(t) && t.signals == s.signals + {signal} && Forward(s, t)
            && t == s.(signals := t.signals, score := t.score, level := t.level, probability := t.probability,
                cooldowns := t.cooldowns)
  {
    hide Sum, Confidence;
    if signal !in s.signals {
      SumAdds(s.signals, signal);
      LevelGrows(s.score, AddSignal(s, signal, now).score);
    } else {
      assert s.signals + {signal} == s.signals;
    }
  }

  /** Exactly what the cooldown does: it rejects a signal not detected yet if and
      only if the clock is below 30, since a signal without a cooldown counts as
      last fired at time 0. */
  lemma CooldownRejectsExactlyWhen(s: Session, signal: Signal, now: real)
    requires Cooled(s)
    ensures Takes(s, signal, now) <==> signal !in s.signals && now >= 30.0
  {}

  /** A session after some signals were added and some moves were made. */
  ghost predicate Reaches(a: Session, b: Session) {
    Scored(b) && Forward(a, b) && b.lastPersisted == a.lastPersisted
  }

  lemma SignalledReaches(a: Session, s: Session, condition: bool, signal: Signal, now: real)
    requires Scored(s) && Reaches(a, s) && now >= 30.0
    ensures var t := Signalled(s, condition, signal, now);
            Reaches(a, t) && t.signals == (if condition then s.signals + {signal} else s.signals) && t.state == s.state
  {
    hide Confidence, Sum, LevelRank;
    SignalTaken(s, signal, now);
  }

  lemma MovedReaches(a: Session, s: Session, condition: bool, to: VisitorState)
    requires Reaches(a, s)
    ensures Reaches(a, Moved(s, condition, to))
  {}

  /** A move that the signal recorded with it, or the state before it, pays for. */
  predicate Pays(signal: Signal, to: VisitorState) {
    match to
    case AT_CHECKOUT => signal == CHECKOUT_ZONE
    case PAYMENT_INTERACTION => signal == CASH || signal == CARD || signal == UPI
    case PURCHASE_COMPLETED => true
    case _ => false
  }

  lemma Step(a: Session, s: Session, condition: bool, signal: Signal, to: VisitorState, now: real)
    requires Reaches(a, s) && Earned(s) && Pays(signal, to) && now >= 30.0
    ensures var t := Moved(Signalled(s, condition, signal, now), condition, to); Reaches(a, t) && Earned(t)
  {
    hide AddSignal, Confidence, Sum, Scored;
    SignalledReaches(a, s, condition, signal, now);
    MovedReaches(a, Signalled(s, condition, signal, now), condition, to);
  }

  lemma StepSignal(a: Session, s: Session, condition: bool, signal: Signal, now: real)
    requires Reaches(a, s) && Earned(s) && now >= 30.0
    ensures var t := Signalled(s, condition, signal, now); Reaches(a, t) && Earned(t)
  {
    SignalledReaches(a, s, condition, signal, now);
  }

  lemma StepMove(a: Session, s: Session, condition: bool, to: VisitorState)
    requires Reaches(a, s) && Earned(s)
    requires to == WAITING_IN_QUEUE || to == PURCHASE_COMPLETED || to == SHOPPING
             || (to == MOVING_TO_CHECKOUT && BROWSING in s.signals && EXTENDED_DWELL in s.signals)
    ensures var t := Moved(s, condition, to); Reaches(a, t) && Earned(t)
  {
    MovedReaches(a, s, condition, to);
  }

  lemma EnteredLive(s: Session, zone: Zone, ts: real, now: real)
    requires Live(s) && now >= 30.0
    ensures var t := Entered(s, zone, ts, now); Reaches(s, t) && Earned(t)
  {
    var s0 := s.(zoneEntry := s.zoneEntry[zone.name := ts],
                 zonesVisited := if zone.name in s.zonesVisited then s.zonesVisited else s.zonesVisited + [zone.name]);
    assert Reaches(s, s0) && Earned(s0);
    hide Reaches, Earned, Signalled, Moved, Live;
    var s1 := Moved(Signalled(s0, zone.checkout, CHECKOUT_ZONE, now), zone.checkout, AT_CHECKOUT);
    var s2 := Moved(Signalled(s1, zone.payment, CARD, now), zone.payment, PAYMENT_INTERACTION);
    var s3 := Moved(Signalled(s2, zone.upi, UPI, now), zone.upi, PAYMENT_INTERACTION);
    var s4 := Moved(Signalled(s3, zone.cash, CASH, now), zone.cash, PAYMENT_INTERACTION);
    Step(s, s0, zone.checkout, CHECKOUT_ZONE, AT_CHECKOUT, now);
    Step(s, s1, zone.payment, CARD, PAYMENT_INTERACTION, now);
    Step(s, s2, zone.upi, UPI, PAYMENT_INTERACTION, now);
    Step(s, s3, zone.cash, CASH, PAYMENT_INTERACTION, now);
    StepMove(s, s4, zone.queue, WAITING_IN_QUEUE);
  }

  lemma LeftCheckoutLive(s: Session, s0: Session, zone: Zone, dwell: real, now: real)
    requires Reaches(s, s0) && Earned(s0) && now >= 30.0
    ensures var t := LeftCheckout(s0, zone, dwell, now); Reaches(s, t) && Earned(t)
  {
    hide Reaches, Earned, Signalled, Moved;
    var s1 := Signalled(s0, zone.queue && dwell > 20.0, QUEUE_COMPLETED, now);
    var s2 := Signalled(s1, zone.checkout && dwell > 90.0, CASH, now);
    var s3 := Signalled(s2, zone.checkout && 30.0 <= dwell <= 90.0, CARD, now);
    var s4 := Signalled(s3, zone.checkout && 10.0 <= dwell < 30.0, UPI, now);
    StepSignal(s, s0, zone.queue && dwell > 20.0, QUEUE_COMPLETED, now);
    StepSignal(s, s1, zone.checkout && dwell > 90.0, CASH, now);
    StepSignal(s, s2, zone.checkout && 30.0 <= dwell <= 90.0, CARD, now);
    StepSignal(s, s3, zone.checkout && 10.0 <= dwell < 30.0, UPI, now);
    StepMove(s, s4, zone.checkout && dwell >= 10.0, PURCHASE_COMPLETED);
  }

  lemma LeftLive(s: Session, zone: Zone, ts: real, now: real)
    requires Live(s) && now >= 30.0
    ensures var t := Left(s, zone, ts, now); Reaches(s, t) && Earned(t)
  {
    var dwell := Dwell(s, zone, ts);
    var s0 := s.(zoneEntry := s.zoneEntry - {zone.name});
    assert Reaches(s, s0) && Earned(s0);
    hide Reaches, Earned, Signalled, Moved, Live, Dwell, LeftCheckout;
    LeftCheckoutLive(s, s0, zone, dwell, now);
    var s5 := LeftCheckout(s0, zone, dwell, now);
    var s6 := Moved(Signalled(s5, zone.payment && dwell > 10.0, CARD, now),
                    zone.payment && dwell > 10.0, PURCHASE_COMPLETED);
    Step(s, s5, zone.payment && dwell > 10.0, CARD, PURCHASE_COMPLETED, now);
    Step(s, s6, zone.upi && dwell > 5.0, UPI, PURCHASE_COMPLETED, now);
  }

  /** Levels that went up from one persisted prediction to the next. */
  ghost predicate Rises(before: Level, predictions: seq<Level>, after: Level)
    decreases |predictions|
  {
    if predictions == [] then before == after
    else LevelRank(before) < LevelRank(predictions[0]) && Rises(predictions[0], predictions[1..], after)
  }

  lemma PersistedRises(a: Session, s: Session, fired: bool)
    requires Reaches(a, s) && Earned(s) && LevelRank(a.lastPersisted) <= LevelRank(a.level)
    ensures var (t, predictions) := Persisted(s, fired);
            Live(t) && Forward(a, t) && Rises(a.lastPersisted, predictions, t.lastPersisted)
  {
    var (t, predictions) := Persisted(s, fired);
    assert predictions != [] ==> predictions[1..] == [];
  }

  lemma HandleCrossingLive(s: Session, zone: Zone, kind: Crossing, ts: real, now: real)
    requires Live(s) && now >= 30.0
    ensures var (t, fired, predictions) := HandleCrossing(s, zone, kind, ts, now);
            Live(t) && Forward(s, t) && Rises(s.lastPersisted, predictions, t.lastPersisted)
  {
    hide Entered, Left, Rises, Persisted;
    EnteredLive(s, zone, ts, now);
    LeftLive(s, zone, ts, now);
    var moved := match kind
      case Entry => Entered(s, zone, ts, now)
      case Exit => Left(s, zone, ts, now)
      case Other => s;
    PersistedRises(s, moved, moved.signals != s.signals);
  }

  lemma {:induction false} RisesMore(a: Level, p: seq<Level>, b: Level, q: seq<Level>, c: Level)
    requires Rises(a, p, b) && Rises(b, q, c)
    ensures Rises(a, p + q, c)
    decreases |p|
  {
    if p == [] {
      assert p + q == q;
    } else {
      assert (p + q)[1..] == p[1..] + q;
      RisesMore(p[0], p[1..], b, q, c);
    }
  }

  /** A signal that time fires, with the prediction it may cause. */
  lemma TimedSignal(s: Session, condition: bool, signal: Signal, now: real)
    requires Live(s) && now >= 30.0
    ensures var fires := condition && Takes(s, signal, now);
            var (t, predictions) := Persisted(Signalled(s, fires, signal, now), fires);
            && Live(t) && Forward(s, t) && Rises(s.lastPersisted, predictions, t.lastPersisted)
            && t.state == s.state && (condition ==> signal in t.signals)
  {
    hide Rises;
    var fires := condition && Takes(s, signal, now);
    SignalTaken(s, signal, now);
    assert Reaches(s, s) && Earned(s);
    StepSignal(s, s, fires, signal, now);
    PersistedRises(s, Signalled(s, fires, signal, now), fires);
  }

  lemma MovedLive(s: Session, condition: bool, to: VisitorState)
    requires Live(s)
    requires to == SHOPPING || (to == MOVING_TO_CHECKOUT
        && (condition ==> BROWSING in s.signals && EXTENDED_DWELL in s.signals))
    ensures var t := Moved(s, condition, to);
            Live(t) && Forward(s, t) && t.lastPersisted == s.lastPersisted && t.signals == s.signals
  {}

  lemma StateChangedLive(s: Session, now: real)
    requires Live(s) && now >= 30.0
    ensures var (t, changed, predictions) := StateChanged(s, now);
            Live(t) && Forward(s, t) && Rises(s.lastPersisted, predictions, t.lastPersisted)
  {
    hide Rises, Signalled, Persisted, Live, Takes, Moved;
    var dwell := now - s.enteredAt;
    var s0 := Moved(s, s.state == ENTERED_STORE && dwell > 10.0, SHOPPING);
    MovedLive(s, s.state == ENTERED_STORE && dwell > 10.0, SHOPPING);
    TimedSignal(s0, dwell > 180.0, BROWSING, now);
    var browses := dwell > 180.0 && Takes(s0, BROWSING, now);
    var (s1, p1) := Persisted(Signalled(s0, browses, BROWSING, now), browses);
    TimedSignal(s1, dwell > 480.0, EXTENDED_DWELL, now);
    var stays := dwell > 480.0 && Takes(s1, EXTENDED_DWELL, now);
    var (s2, p2) := Persisted(Signalled(s1, stays, EXTENDED_DWELL, now), stays);
    RisesMore(s.lastPersisted, p1, s1.lastPersisted, p2, s2.lastPersisted);
    MovedLive(s2, stays && s2.state == SHOPPING, MOVING_TO_CHECKOUT);
  }

  /** A session no signal can have moved on: with a clock below 30 it stays so. */
  ghost predicate Early(s: Session) {
    s.signals == {} && Rank(s.state) <= 1
  }

  /** Below 30 an early session takes no signal, and none of the moves that go
      with one. */
  lemma EarlyStep(s: Session, condition: bool, signal: Signal, moves: bool, to: VisitorState, now: real)
    requires Scored(s) && Early(s) && now < 30.0
    requires 3 <= Rank(to) <= 6
    ensures Signalled(s, condition, signal, now) == s && Moved(s, moves, to) == s
  {
    hide Sum, Confidence;
    CooldownRejectsExactlyWhen(s, signal, now);
  }

  lemma EnteredEarly(s: Session, zone: Zone, ts: real, now: real)
    requires Scored(s) && Early(s) && now < 30.0
    ensures Entered(s, zone, ts, now) ==
            s.(zoneEntry := s.zoneEntry[zone.name := ts],
               zonesVisited := if zone.name in s.zonesVisited then s.zonesVisited else s.zonesVisited + [zone.name])
  {
    var t := s.(zoneEntry := s.zoneEntry[zone.name := ts],
                zonesVisited := if zone.name in s.zonesVisited then s.zonesVisited else s.zonesVisited + [zone.name]);
    assert Scored(t) && Early(t);
    hide Scored, Early, Signalled, Moved;
    EarlyStep(t, zone.checkout, CHECKOUT_ZONE, zone.checkout, AT_CHECKOUT, now);
    EarlyStep(t, zone.payment, CARD, zone.payment, PAYMENT_INTERACTION, now);
    EarlyStep(t, zone.upi, UPI, zone.upi, PAYMENT_INTERACTION, now);
    EarlyStep(t, zone.cash, CASH, zone.cash, PAYMENT_INTERACTION, now);
    EarlyStep(t, zone.cash, CASH, zone.queue, WAITING_IN_QUEUE, now);
  }

  lemma LeftEarly(s: Session, zone: Zone, ts: real, now: real)
    requires Scored(s) && Early(s) && now < 30.0
    ensures Left(s, zone, ts, now) == s.(zoneEntry := s.zoneEntry - {zone.name})
  {
    var t, dwell := s.(zoneEntry := s.zoneEntry - {zone.name}), Dwell(s, zone, ts);
    assert Scored(t) && Early(t);
    hide Scored, Early, Signalled, Moved, Dwell;
    EarlyStep(t, zone.queue && dwell > 20.0, QUEUE_COMPLETED, zone.checkout && dwell >= 10.0, PURCHASE_COMPLETED, now);
    EarlyStep(t, zone.checkout && dwell > 90.0, CASH, zone.payment && dwell > 10.0, PURCHASE_COMPLETED, now);
    EarlyStep(t, zone.checkout && 30.0 <= dwell <= 90.0, CARD, zone.upi && dwell > 5.0, PURCHASE_COMPLETED, now);
    EarlyStep(t, zone.checkout && 10.0 <= dwell < 30.0, UPI, true, PURCHASE_COMPLETED, now);
    EarlyStep(t, zone.payment && dwell > 10.0, CARD, true, PURCHASE_COMPLETED, now);
    EarlyStep(t, zone.upi && dwell > 5.0, UPI, true, PURCHASE_COMPLETED, now);
  }

  lemma CrossingEarly(s: Session, zone: Zone, kind: Crossing, ts: real, now: real)
    requires Live(s) && Early(s) && now < 30.0
    ensures var (t, fired, predictions) := HandleCrossing(s, zone, kind, ts, now);
            Live(t) && Early(t) && Forward(s, t) && !fired && predictions == [] && t.lastPersisted == s.lastPersisted
  {
    hide Entered, Left, Sum, Confidence;
    EnteredEarly(s, zone, ts, now);
    LeftEarly(s, zone, ts, now);
  }

  lemma TimeEarly(s: Session, now: real)
    requires Live(s) && Early(s) && now < 30.0
    ensures var (t, changed, predictions) := StateChanged(s, now);
            Live(t) && Early(t) && Forward(s, t) && predictions == [] && t.lastPersisted == s.lastPersisted
  {
    hide Sum, Confidence;
    var s0 := Moved(s, s.state == ENTERED_STORE && now - s.enteredAt > 10.0, SHOPPING);
    MovedLive(s, s.state == ENTERED_STORE && now - s.enteredAt > 10.0, SHOPPING);
    CooldownRejectsExactlyWhen(s0, BROWSING, now);
    CooldownRejectsExactlyWhen(s0, EXTENDED_DWELL, now);
  }

  /** Every crossing, with the look at the time after it, keeps a live session
      live, takes it forward and persists only at rising levels, when the clock
      is past 30 or the session is early; below 30 it stays early. */
  lemma CrossLive(s: Session, zone: Zone, kind: Crossing, ts: real, now: real)
    requires Live(s) && (now >= 30.0 || Early(s))
    ensures var (t, changed, predictions) := Cross(s, zone, kind, ts, now);
            && Live(t) && Forward(s, t) && Rises(s.lastPersisted, predictions, t.lastPersisted)
            && (now < 30.0 ==> Early(t))
  {
    hide Rises, Live, Early, HandleCrossing, StateChanged, Confidence;
    var (s1, fired, p1) := HandleCrossing(s, zone, kind, ts, now);
    var (s2, changed, p2) := StateChanged(s1, now);
    if now >= 30.0 {
      HandleCrossingLive(s, zone, kind, ts, now);
      StateChangedLive(s1, now);
      RisesMore(s.lastPersisted, p1, s1.lastPersisted, p2, s2.lastPersisted);
    } else {
      CrossingEarly(s, zone, kind, ts, now);
      TimeEarly(s1, now);
      RisesNot(s.lastPersisted);
      assert p1 + p2 == [];
    }
  }

  /** Below 30 the state runs ahead of the signals: a visitor on the way to the
      checkout who enters it keeps the bound if and only if the clock is past 30,
      because the move is made whether or not the signal was taken. */
  lemma BoundNeedsTheClock(s: Session, zone: Zone, ts: real, now: real)
    requires Live(s) && s.state == MOVING_TO_CHECKOUT && CHECKOUT_ZONE !in s.signals
    requires zone.checkout && !zone.payment && !zone.upi && !zone.cash
    ensures Entered(s, zone, ts, now).state == AT_CHECKOUT
    ensures Earned(Entered(s, zone, ts, now)) <==> now >= 30.0
  {
    hide Sum, Confidence;
    CooldownRejectsExactlyWhen(s, CHECKOUT_ZONE, now);
  }

  /** The state machine bounds the score: whoever is paying or has paid is at
      80 or more, and so at level MEDIUM or HIGH. */
  lemma PayingIsLikely(s: Session)
    requires Live(s) && Rank(s.state) >= 5
    ensures s.score >= 80 && (s.level == MEDIUM || s.level == HIGH)
  {}

  // ----- the run of one session

  datatype Happening = Happening(zone: Zone, kind: Crossing, ts: real, now: real)

  function Run(s: Session, run: seq<Happening>): (Session, seq<Level>) {
    if run == [] then (s, [])
    else
      var (before, predictions) := Run(s, run[..|run| - 1]);
      var h := run[|run| - 1];
      var (after, changed, more) := Cross(before, h.zone, h.kind, h.ts, h.now);
      (after, predictions + more)
  }

  /** What the clock read along a run. */
  function Clock(run: seq<Happening>): (clock: seq<real>)
    ensures |clock| == |run| && forall k :: 0 <= k < |run| ==> clock[k] == run[k].now
  {
    seq(|run|, k requires 0 <= k < |run| => run[k].now)
  }

  /** A clock that does not read below 30 once it has reached it, as no clock
      does that never goes back. */
  ghost predicate StaysUp(clock: seq<real>) {
    forall j, k :: 0 <= j < k < |clock| && clock[j] >= 30.0 ==> clock[k] >= 30.0
  }

  ghost predicate Down(clock: seq<real>) {
    forall k :: 0 <= k < |clock| ==> clock[k] < 30.0
  }

  lemma {:induction false} RunLive(s: Session, run: seq<Happening>)
    requires Live(s) && Early(s) && StaysUp(Clock(run))
    ensures var (t, predictions) := Run(s, run);
            && Live(t) && Forward(s, t) && Rises(s.lastPersisted, predictions, t.lastPersisted)
            && (Down(Clock(run)) ==> Early(t))
  {
    hide Rises, Live, Early, Cross;
    if run == [] {
      RisesNot(s.lastPersisted);
    } else {
      var init, h := run[..|run| - 1], run[|run| - 1];
      var clock := Clock(run);
      assert Clock(init) == clock[..|init|];
      RunLive(s, init);
      var (before, predictions) := Run(s, init);
      assert h.now == clock[|init|];
      assert h.now < 30.0 ==> Down(Clock(init));
      CrossLive(before, h.zone, h.kind, h.ts, h.now);
      var (after, changed, more) := Cross(before, h.zone, h.kind, h.ts, h.now);
      RisesMore(s.lastPersisted, predictions, before.lastPersisted, more, after.lastPersisted);
    }
  }

  lemma RisesNot(l: Level)
    ensures Rises(l, [], l)
  {}

  lemma {:induction false} RisesBound(before: Level, predictions: seq<Level>, after: Level)
    requires Rises(before, predictions, after)
    ensures LevelRank(before) + |predictions| <= LevelRank(after)
    ensures forall j, k :: 0 <= j < k < |predictions| ==> LevelRank(predictions[j]) < LevelRank(predictions[k])
    ensures forall k :: 0 <= k < |predictions| ==> LevelRank(before) < LevelRank(predictions[k])
    decreases |predictions|
  {
    if predictions != [] {
      RisesBound(predictions[0], predictions[1..], after);
      assert forall k :: 1 <= k < |predictions| ==> predictions[k] == predictions[1..][k - 1];
    }
  }

  /** Whole sessions: over any run of crossings on a clock that stays up, from
      wherever it starts, the score is the saturated sum of the signals, the
      state bounds the signals, and at most three predictions are persisted, at
      strictly rising levels. */
  lemma SessionRun(enteredAt: real, lastSeen: real, run: seq<Happening>)
    requires StaysUp(Clock(run))
    ensures var (s, predictions) := Run(NewSession(enteredAt, lastSeen), run);
            && Live(s) && |predictions| <= 3
            && (forall j, k :: 0 <= j < k < |predictions| ==> LevelRank(predictions[j]) < LevelRank(predictions[k]))
  {
    hide Rises, Run;
    var s0 := NewSession(enteredAt, lastSeen);
    RunLive(s0, run);
    var (s, predictions) := Run(s0, run);
    RisesBound(UNLIKELY, predictions, s.lastPersisted);
  }

  /** A clock that falls back: past 30 the dwell signals are taken and the
      visitor is on the way; read at 20 and 21 it lets the visitor reach the
      checkout and pay without a signal for either. */
  function FallingBack(): seq<Happening> {
    var floor := Zone("floor", false, false, false, false, false);
    var till := Zone("till", true, false, false, false, false);
    var terminal := Zone("terminal", false, false, true, false, false);
    [Happening(floor, Other, 500.0, 500.0), Happening(till, Entry, 20.0, 20.0), Happening(terminal, Entry, 21.0, 21.0)]
  }

  lemma FallingClockBreaksBound()
    ensures var s := Run(NewSession(0.0, 0.0), FallingBack()).0;
            s.state == PAYMENT_INTERACTION && s.signals == {BROWSING, EXTENDED_DWELL} && s.score == 40 && s.level == LOW
  {
    hide Cross, Run;
    var run, s0 := FallingBack(), NewSession(0.0, 0.0);
    FallingFirst();
    var s1 := Next(s0, run[0]);
    FallingSecond(s1);
    FallingThird(Next(s1, run[1]));
    RunOfThree(s0, run);
  }

  function Next(s: Session, h: Happening): Session {
    Cross(s, h.zone, h.kind, h.ts, h.now).0
  }

  lemma RunOfThree(s: Session, run: seq<Happening>)
    requires |run| == 3
    ensures Run(s, run).0 == Next(Next(Next(s, run[0]), run[1]), run[2])
  {
    hide Cross;
    assert run[..2][..1] == run[..1] && run[..1][..0] == [];
    assert Run(s, run[..1]).0 == Next(s, run[0]);
    assert Run(s, run[..2]).0 == Next(Run(s, run[..1]).0, run[1]);
  }

  /** A visitor on the way, after the clock fell back. */
  ghost predicate Fallen(s: Session, state: VisitorState) {
    && s.state == state && s.signals == {BROWSING, EXTENDED_DWELL} && s.score == 40 && s.level == LOW
    && s.enteredAt == 0.0 && s.cooldowns == map[BROWSING := 500.0, EXTENDED_DWELL := 500.0]
  }

  lemma FallingSecond(s: Session)
    requires Fallen(s, MOVING_TO_CHECKOUT)
    ensures Fallen(Next(s, FallingBack()[1]), AT_CHECKOUT)
  {}

  lemma FallingThird(s: Session)
    requires Fallen(s, AT_CHECKOUT)
    ensures Fallen(Next(s, FallingBack()[2]), PAYMENT_INTERACTION)
  {}

  lemma FallingFirst()
    ensures Fallen(Next(NewSession(0.0, 0.0), FallingBack()[0]), MOVING_TO_CHECKOUT)
  {}

  const FLOOR := Zone("floor", false, false, false, false, false)
  const TILL := Zone("till", true, false, false, false, false)

  /** A visitor who does nothing but enter the checkout at moment k. */
  function OneEntry(clock: seq<real>, k: nat): (run: seq<Happening>)
    ensures Clock(run) == clock
  {
    seq(|clock|, i requires 0 <= i < |clock| =>
      Happening(if i == k then TILL else FLOOR, if i == k then Entry else Other, clock[i], clock[i]))
  }

  /** A visitor no crossing has touched: long dwell comes with browsing and with
      the move towards the checkout. */
  ghost predicate Untouched(s: Session) {
    && Cooled(s) && CHECKOUT_ZONE !in s.signals && Rank(s.state) <= 2
    && (EXTENDED_DWELL in s.signals ==> s.state == MOVING_TO_CHECKOUT)
  }

  /** A visitor who got to the checkout without the signal for it. */
  ghost predicate Ahead(s: Session) {
    Cooled(s) && CHECKOUT_ZONE !in s.signals && s.state == AT_CHECKOUT
  }

  lemma OtherIsTime(s: Session, ts: real, now: real)
    ensures Cross(s, FLOOR, Other, ts, now).0 == StateChanged(s, now).0
  {}

  /** What a signal that time may fire leaves alone. */
  lemma FiredInTime(s: Session, condition: bool, signal: Signal, now: real)
    requires Cooled(s)
    ensures var fires := condition && Takes(s, signal, now);
            var t := Persisted(Signalled(s, fires, signal, now), fires).0;
            && Cooled(t) && t.state == s.state && t.enteredAt == s.enteredAt
            && t.signals == s.signals + (if fires then {signal} else {})
            && (condition && now >= 30.0 ==> signal in t.signals)
  {
    hide Confidence;
    CooldownRejectsExactlyWhen(s, signal, now);
  }

  lemma IdleUntouched(s: Session, ts: real, now: real)
    requires Untouched(s)
    ensures var t := Cross(s, FLOOR, Other, ts, now).0;
            && Untouched(t) && t.enteredAt == s.enteredAt
            && (EXTENDED_DWELL in s.signals || (now >= 30.0 && now - s.enteredAt > 480.0) ==>
                EXTENDED_DWELL in t.signals)
  {
    hide Confidence, Cross, Signalled, Persisted, Takes;
    OtherIsTime(s, ts, now);
    var dwell := now - s.enteredAt;
    var s0 := Moved(s, s.state == ENTERED_STORE && dwell > 10.0, SHOPPING);
    FiredInTime(s0, dwell > 180.0, BROWSING, now);
    var browses := dwell > 180.0 && Takes(s0, BROWSING, now);
    FiredInTime(Persisted(Signalled(s0, browses, BROWSING, now), browses).0, dwell > 480.0, EXTENDED_DWELL, now);
  }

  lemma IdleAhead(s: Session, ts: real, now: real)
    requires Ahead(s)
    ensures Ahead(Cross(s, FLOOR, Other, ts, now).0)
  {
    hide Confidence, Cross;
    OtherIsTime(s, ts, now);
  }

  lemma EntryAhead(s: Session, ts: real, now: real)
    requires Untouched(s) && EXTENDED_DWELL in s.signals && now < 30.0
    ensures Ahead(Cross(s, TILL, Entry, ts, now).0)
  {
    hide Confidence, StateChanged;
    CooldownRejectsExactlyWhen(s, CHECKOUT_ZONE, now);
    IdleAhead(HandleCrossing(s, TILL, Entry, ts, now).0, ts, now);
    OtherIsTime(HandleCrossing(s, TILL, Entry, ts, now).0, ts, now);
  }

  /** How the visitor of `OneEntry` fares, who came 500 s before moment j. */
  lemma {:induction false} OneEntryRun(clock: seq<real>, j: nat, k: nat, n: nat)
    requires j < k < |clock| && clock[j] >= 30.0 && clock[k] < 30.0 && n <= |clock|
    ensures var s := Run(NewSession(clock[j] - 500.0, 0.0), OneEntry(clock, k)[..n]).0;
            if n <= k then
              Untouched(s) && s.enteredAt == clock[j] - 500.0 && (j < n ==> EXTENDED_DWELL in s.signals)
            else Ahead(s)
  {
    hide Cross, Untouched, Ahead;
    var s0, run := NewSession(clock[j] - 500.0, 0.0), OneEntry(clock, k);
    if n == 0 {
      assert run[..0] == [] && Untouched(s0) by { FreshUntouched(clock[j] - 500.0); }
    } else {
      OneEntryRun(clock, j, k, n - 1);
      assert run[..n][..n - 1] == run[..n - 1];
      var s, h := Run(s0, run[..n - 1]).0, run[n - 1];
      if n - 1 < k {
        IdleUntouched(s, h.ts, h.now);
      } else if n - 1 == k {
        EntryAhead(s, h.ts, h.now);
      } else {
        IdleAhead(s, h.ts, h.now);
      }
    }
  }

  lemma FreshUntouched(enteredAt: real)
    ensures Untouched(NewSession(enteredAt, 0.0))
  {}

  /** The exact condition: whatever visitors do, every session stays live on a
      clock if and only if the clock stays up. */
  lemma LiveExactlyWhen(clock: seq<real>)
    ensures (forall run, enteredAt, lastSeen :: Clock(run) == clock ==>
        Live(Run(NewSession(enteredAt, lastSeen), run).0))
            <==> StaysUp(clock)
  {
    hide Live, Run;
    if StaysUp(clock) {
      forall run, enteredAt, lastSeen | Clock(run) == clock ensures Live(Run(NewSession(enteredAt, lastSeen), run).0) {
        SessionRun(enteredAt, lastSeen, run);
      }
    } else {
      var j, k :| 0 <= j < k < |clock| && clock[j] >= 30.0 && clock[k] < 30.0;
      var run := OneEntry(clock, k);
      OneEntryRun(clock, j, k, |clock|);
      assert run[..|clock|] == run;
      AheadIsNotLive(Run(NewSession(clock[j] - 500.0, 0.0), run).0);
    }
  }

  lemma AheadIsNotLive(s: Session)
    requires Ahead(s)
    ensures !Live(s)
  {}

  // ----- the checkout heuristic

  /** A zone exit completes a purchase exactly for a visitor already in payment
      interaction: the dwell heuristic at the checkout records a payment signal
      for anyone, but the transition it asks for is not allowed from
      AT_CHECKOUT, so a visitor who only stood at the checkout never completes. */
  lemma CompletesExactlyWhen(s: Session, zone: Zone, ts: real, now: real)
    ensures var dwell := Dwell(s, zone, ts);
            Left(s, zone, ts, now).state ==
            if s.state == PAYMENT_INTERACTION
               && ((zone.checkout && dwell >= 10.0) || (zone.payment && dwell > 10.0) || (zone.upi && dwell > 5.0))
            then PURCHASE_COMPLETED else s.state
  {
    hide Signalled, Moved, Dwell, LeftCheckout;
    var dwell := Dwell(s, zone, ts);
    var s0 := s.(zoneEntry := s.zoneEntry - {zone.name});
    var s5 := LeftCheckout(s0, zone, dwell, now);
    var s6 := Moved(Signalled(s5, zone.payment && dwell > 10.0, CARD, now),
                    zone.payment && dwell > 10.0, PURCHASE_COMPLETED);
    CheckoutCompletes(s0, zone, dwell, now);
    SameState(s5, zone.payment && dwell > 10.0, CARD, now);
    SameState(s6, zone.upi && dwell > 5.0, UPI, now);
    Completes(Signalled(s5, zone.payment && dwell > 10.0, CARD, now), zone.payment && dwell > 10.0);
    Completes(Signalled(s6, zone.upi && dwell > 5.0, UPI, now), zone.upi && dwell > 5.0);
  }

  lemma CheckoutCompletes(s: Session, zone: Zone, dwell: real, now: real)
    ensures LeftCheckout(s, zone, dwell, now).state ==
            if zone.checkout && dwell >= 10.0 && s.state == PAYMENT_INTERACTION then PURCHASE_COMPLETED else s.state
  {
    hide Signalled, Moved;
    var s1 := Signalled(s, zone.queue && dwell > 20.0, QUEUE_COMPLETED, now);
    var s2 := Signalled(s1, zone.checkout && dwell > 90.0, CASH, now);
    var s3 := Signalled(s2, zone.checkout && 30.0 <= dwell <= 90.0, CARD, now);
    var s4 := Signalled(s3, zone.checkout && 10.0 <= dwell < 30.0, UPI, now);
    SameState(s, zone.queue && dwell > 20.0, QUEUE_COMPLETED, now);
    SameState(s1, zone.checkout && dwell > 90.0, CASH, now);
    SameState(s2, zone.checkout && 30.0 <= dwell <= 90.0, CARD, now);
    SameState(s3, zone.checkout && 10.0 <= dwell < 30.0, UPI, now);
    Completes(s4, zone.checkout && dwell >= 10.0);
  }

  lemma SameState(s: Session, condition: bool, signal: Signal, now: real)
    ensures Signalled(s, condition, signal, now).state == s.state
  {}

  lemma Completes(s: Session, condition: bool)
    ensures Moved(s, condition, PURCHASE_COMPLETED).state ==
            if condition && s.state == PAYMENT_INTERACTION then PURCHASE_COMPLETED else s.state
  {}
}
