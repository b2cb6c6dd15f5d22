/** Virtual lines: `VisitorLineState.update` as a debounced sign-flip detector. */
module LineCrossing {
  import opened Options

  datatype Direction = IN | OUT

  /** One sign of a cross product that is not zero. */
  datatype Side = Inside | Outside

  datatype LineType = ENTRY | EXIT | BOTH

  datatype EventType = CUSTOMER_ENTERED | CUSTOMER_EXITED

  /** A line as far as crossings depend on it. */
  datatype Line = Line(
    id: string, lineType: LineType, x1: real, y1: real, x2: real, y2: real,
    flip: bool, active: bool, minCrossings: int)

  /** `side_of`: the cross product AB x AP, negated for a flipped line. */
  function SideOf(l: Line, px: real, py: real): real {
    var cross := (l.x2 - l.x1) * (py - l.y1) - (l.y2 - l.y1) * (px - l.x1);
    if l.flip then -cross else cross
  }

  /** The fields of a `VisitorLineState`. */
  datatype State = State(lastSide: Option<real>, pendingDir: Option<Direction>, pendingCount: int)

  const INITIAL := State(None, None, 0)

  /** `VisitorLineState.update` on values. */
  function Update(s: State, side: real, minCrossings: int): (State, Option<Direction>) {
    if side == 0.0 then (s, None)
    else if s.lastSide == None || s.lastSide == Some(0.0) then (s.(lastSide := Some(side)), None)
    else if (s.lastSide.value > 0.0) != (side > 0.0) then
      var tentative := if s.lastSide.value > 0.0 && side < 0.0 then OUT else IN;
      var count := if s.pendingDir == Some(tentative) then s.pendingCount + 1 else 1;
      if count >= minCrossings then (State(Some(side), None, 0), Some(tentative))
      else (s.(pendingDir := Some(tentative), pendingCount := count), None)
    else (State(Some(side), None, 0), None)
  }

  /** The same object in place. */
  class VisitorLineState {
    var lastSide: Option<real>
    var pendingDir: Option<Direction>
    var pendingCount: int

    constructor ()
      ensures Value() == INITIAL
    {
      lastSide, pendingDir, pendingCount := None, None, 0;
    }

    function Value(): State
      reads this
    {
      State(lastSide, pendingDir, pendingCount)
    }

    method UpdateSide(side: real, minCrossings: int) returns (confirmed: Option<Direction>)
      modifies this
      ensures (Value(), confirmed) == Update(old(Value()), side, minCrossings)
    {
      if side == 0.0 {
        return None;
      }
      if lastSide == None || lastSide == Some(0.0) {
        lastSide := Some(side);
        return None;
      }
      if (lastSide.value > 0.0) != (side > 0.0) {
        var tentative := if lastSide.value > 0.0 && side < 0.0 then OUT else IN;
        if pendingDir == Some(tentative) {
          pendingCount := pendingCount + 1;
        } else {
          pendingDir := Some(tentative);
          pendingCount := 1;
        }
        if pendingCount >= minCrossings {
          lastSide, pendingDir, pendingCount := Some(side), None, 0;
          return Some(tentative);
        }
      } else {
        lastSide, pendingDir, pendingCount := Some(side), None, 0;
      }
      return None;
    }
  }

  // ----- what the debounce means

  function SideOfSample(side: real): Side
    requires side != 0.0
  {
    if side > 0.0 then Inside else Outside
  }

  /** The samples that are not exactly on the line, as sides. */
  function Sides(samples: seq<real>): seq<Side> {
    if samples == [] then []
    else
      var last := samples[|samples| - 1];
      Sides(samples[..|samples| - 1]) + if last == 0.0 then [] else [SideOfSample(last)]
  }

  function Opposite(s: Side): Side {
    if s == Inside then Outside else Inside
  }

  function Toward(s: Side): Direction {
    if s == Inside then IN else OUT
  }

  /** The last k sides are all s. */
  ghost predicate EndsIn(sides: seq<Side>, s: Side, k: nat) {
    k <= |sides| && forall i :: |sides| - k <= i < |sides| ==> sides[i] == s
  }

  /** A crossing needs at least one sample, whatever min_crossings says. */
  function Needed(minCrossings: int): nat {
    if minCrossings < 1 then 1 else minCrossings
  }

  /** The confirmed side, by the rule alone: the side of the first sample, then
      the other side whenever the last k samples all lie there. */
  ghost function Confirmed(sides: seq<Side>, k: nat): Option<Side> {
    if sides == [] then None
    else
      var before := Confirmed(sides[..|sides| - 1], k);
      if before == None then Some(sides[0])
      else if EndsIn(sides, Opposite(before.value), k) then Some(Opposite(before.value))
      else before
  }

  /** The detector run over samples from the initial state. */
  function Run(samples: seq<real>, minCrossings: int): State {
    if samples == [] then INITIAL
    else Update(Run(samples[..|samples| - 1], minCrossings), samples[|samples| - 1], minCrossings).0
  }

  /** How many sides at the end are s. */
  function Trailing(sides: seq<Side>, s: Side): nat {
    if sides == [] || sides[|sides| - 1] != s then 0 else 1 + Trailing(sides[..|sides| - 1], s)
  }

  lemma {:induction false} TrailingExact(sides: seq<Side>, s: Side, k: nat)
    ensures Trailing(sides, s) >= k <==> EndsIn(sides, s, k)
  {
    if sides != [] && k > 0 {
      TrailingExact(sides[..|sides| - 1], s, k - 1);
      var init := sides[..|sides| - 1];
      if EndsIn(sides, s, k) {
        assert EndsIn(init, s, k - 1);
        assert sides[|sides| - 1] == s;
      }
    }
  }

  lemma TrailingSnoc(w: seq<Side>, c: Side, s: Side)
    ensures Trailing(w + [c], s) == if c == s then 1 + Trailing(w, s) else 0
  {
    assert (w + [c])[..|w|] == w;
  }

  lemma ConfirmedSnoc(w: seq<Side>, c: Side, k: nat)
    requires k >= 1 && (w != [] ==> Confirmed(w, k) != None)
    ensures Confirmed(w + [c], k) ==
            if w == [] then Some(c)
            else if c == Opposite(Confirmed(w, k).value) && 1 + Trailing(w, c) >= k then Some(c)
            else Confirmed(w, k)
  {
    assert (w + [c])[..|w|] == w;
    if w != [] {
      var away := Opposite(Confirmed(w, k).value);
      TrailingExact(w + [c], away, k);
      TrailingSnoc(w, c, away);
    }
  }

  /** What the fields stand for: the sign of the last confirmed side, and the
      number of samples at the end that lie opposite to it. */
  ghost predicate Stands(s: State, sides: seq<Side>, k: nat) {
    && (s.lastSide == None <==> sides == [])
    && (s.lastSide == None ==> s == INITIAL)
    && (s.lastSide != None ==>
          && s.lastSide.value != 0.0
          && Confirmed(sides, k) == Some(SideOfSample(s.lastSide.value))
          && var away := Opposite(SideOfSample(s.lastSide.value));
             && s.pendingCount == Trailing(sides, away) < k
             && s.pendingDir == if s.pendingCount == 0 then None else Some(Toward(away)))
  }

  lemma StandsKept(s: State, sides: seq<Side>, side: real, minCrossings: int)
    requires Stands(s, sides, Needed(minCrossings)) && side != 0.0
    ensures Stands(Update(s, side, minCrossings).0, sides + [SideOfSample(side)], Needed(minCrossings))
  {
    hide Confirmed, Trailing;
    var c, k := SideOfSample(side), Needed(minCrossings);
    if sides == [] {
      ConfirmedSnoc(sides, c, k);
      TrailingSnoc(sides, c, Opposite(c));
    } else {
      var b := SideOfSample(s.lastSide.value);
      ConfirmedSnoc(sides, c, k);
      TrailingSnoc(sides, c, b);
      TrailingSnoc(sides, c, Opposite(b));
    }
  }

  lemma {:induction false} RunStands(samples: seq<real>, minCrossings: int)
    ensures Stands(Run(samples, minCrossings), Sides(samples), Needed(minCrossings))
  {
    if samples != [] {
      var init, last := samples[..|samples| - 1], samples[|samples| - 1];
      RunStands(init, minCrossings);
      if last != 0.0 {
        StandsKept(Run(init, minCrossings), Sides(init), last, minCrossings);
      } else {
        assert Sides(samples) == Sides(init);
      }
    }
  }

  /** The debounce: after any samples, the next one confirms a crossing exactly
      when it is not on the line and, with it, the last k samples off the line
      all lie opposite to the last confirmed side; the direction is towards
      them. Samples on the line never matter, and k is at least 1. */
  lemma ConfirmsExactlyWhen(samples: seq<real>, side: real, minCrossings: int)
    ensures var k, sides := Needed(minCrossings), Sides(samples);
            var confirmed := Update(Run(samples, minCrossings), side, minCrossings).1;
            if side == 0.0 || Confirmed(sides, k) == None then confirmed == None
            else
              var away := Opposite(Confirmed(sides, k).value);
              confirmed == if EndsIn(sides + [SideOfSample(side)], away, k) then Some(Toward(away)) else None
  {
    hide Confirmed, Trailing;
    var k, sides := Needed(minCrossings), Sides(samples);
    RunStands(samples, minCrossings);
    if side != 0.0 && sides != [] {
      var c, b := SideOfSample(side), Confirmed(sides, k).value;
      TrailingSnoc(sides, c, Opposite(b));
      TrailingExact(sides + [c], Opposite(b), k);
    } else if sides == [] {
      NothingConfirmed(k);
    }
  }

  lemma NothingConfirmed(k: nat)
    ensures Confirmed([], k) == None
  {}

  /** All the crossings of a run, in order. */
  function Crossings(samples: seq<real>, minCrossings: int): seq<Direction> {
    if samples == [] then []
    else
      var init, last := samples[..|samples| - 1], samples[|samples| - 1];
      Crossings(init, minCrossings) +
      match Update(Run(init, minCrossings), last, minCrossings).1
      case None => []
      case Some(d) => [d]
  }

  /** Directions strictly alternate, and the last one leads to the side the
      detector now takes for confirmed. */
  lemma {:induction false} CrossingsAlternate(samples: seq<real>, minCrossings: int)
    ensures var d, s := Crossings(samples, minCrossings), Run(samples, minCrossings);
            && (forall i :: 0 < i < |d| ==> d[i] != d[i - 1])
            && (d != [] ==> s.lastSide != None && s.lastSide.value != 0.0
                            && d[|d| - 1] == Toward(SideOfSample(s.lastSide.value)))
  {
    if samples != [] {
      CrossingsAlternate(samples[..|samples| - 1], minCrossings);
    }
  }

  /** Samples on the line can be dropped without changing state or crossings. */
  lemma {:induction false} OnLineIgnored(samples: seq<real>, minCrossings: int)
    ensures var off := OffLine(samples);
            Run(samples, minCrossings) == Run(off, minCrossings)
                && Crossings(samples, minCrossings) == Crossings(off, minCrossings)
  {
    if samples != [] {
      var init, last := samples[..|samples| - 1], samples[|samples| - 1];
      OnLineIgnored(init, minCrossings);
      if last != 0.0 {
        assert OffLine(samples)[..|OffLine(init)|] == OffLine(init);
      } else {
        assert OffLine(samples) == OffLine(init) + [] == OffLine(init);
        assert Crossings(samples, minCrossings) == Crossings(init, minCrossings) + [] == Crossings(init, minCrossings);
      }
    }
  }

  function OffLine(samples: seq<real>): seq<real> {
    if samples == [] then []
    else
      var last := samples[|samples| - 1];
      OffLine(samples[..|samples| - 1]) + if last == 0.0 then [] else [last]
  }
}
