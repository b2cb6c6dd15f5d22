/** The `LineCrossingDetector` object. Its methods are the operations of the run
    model, with one `VisitorLineState` object for every key. */
module DetectorObject {
  import opened Options
  import opened LineCrossing
  import opened CrossingDetector

  class LineCrossingDetector {
    var lines: map<string, seq<Line>>
    var states: map<Key, VisitorLineState>
    /** The detector as a value of the run model. */
    ghost var model: Detector

    ghost predicate Stands(k: Key)
      requires k in states
      reads this, states[k]
    {
      k in model.states && states[k].Value() == model.states[k]
    }

    ghost predicate Valid()
      reads this, states.Values
    {
      && model.lines == lines && model.states.Keys == states.Keys
      && (forall k {:trigger Stands(k)} :: k in states ==> Stands(k))
      && (forall j, k :: j in states && k in states && j != k ==> states[j] != states[k])
    }

    constructor ()
      ensures Valid() && model == EMPTY
    {
      lines, states, model := map[], map[], EMPTY;
    }

    /** `setdefault`. */
    method SetDefault(key: Key)
      requires Valid()
      modifies this`states, this`model
      ensures Valid() && fresh(states.Values - old(states.Values)) && key in states
      ensures model == old(model).(states := old(model).states[key := StateOf(old(model).states, key)])
    {
      if key !in states {
        var created := new VisitorLineState();
        states := states[key := created];
        model := model.(states := model.states[key := INITIAL]);
        forall k | k in states ensures Stands(k) {
          assert k != key ==> old(Stands(k));
        }
      } else {
        assert model.states == model.states[key := StateOf(model.states, key)];
      }
    }

    /** One visit of the loops of `process_frame`. */
    method VisitOne(camera: string, line: Line, seen: Seen) returns (crossings: seq<Crossing>)
      requires Valid()
      modifies this`states, this`model, states.Values
      ensures Valid() && fresh(states.Values - old(states.Values)) && model.lines == old(model).lines
      ensures (model.states, crossings) == Visit(old(model).states, camera, (line, seen))
    {
      hide SideOf, Update;
      var key := (camera, line.id, seen.visitor);
      SetDefault(key);
      label Default:
      assert Stands(key);
      var confirmed := states[key].UpdateSide(SideOf(line, seen.x, seen.y), line.minCrossings);
      model := model.(states := model.states[key := states[key].Value()]);
      forall k | k in states ensures Stands(k) {
        assert old@Default(Stands(k));
      }
      assert model.states == old(model).states[key := states[key].Value()];
      crossings := match confirmed
        case None => []
        case Some(d) => [Crossing(key, d, EventTypeOf(line, d))];
    }

    /** The inner loop of `process_frame`, after some visits made before. */
    method VisitRow(camera: string, line: Line, visitors: seq<Seen>, earlier: seq<Crossing>,
                    ghost states0: map<Key, State>, ghost visits: seq<(Line, Seen)>)
      returns (crossings: seq<Crossing>)
      requires Valid() && (model.states, earlier) == VisitAll(states0, camera, visits)
      modifies this`states, this`model, states.Values
      ensures Valid() && fresh(states.Values - old(states.Values)) && model.lines == old(model).lines
      ensures (model.states, crossings) == VisitAll(states0, camera, visits + Row(line, visitors))
    {
      hide Visit, Stands;
      crossings := earlier;
      assert visits + [] == visits && Row(line, visitors[..0]) == [];
      for j := 0 to |visitors|
        invariant Valid() && fresh(states.Values - old(states.Values)) && model.lines == old(model).lines
        invariant (model.states, crossings) == VisitAll(states0, camera, visits + Row(line, visitors[..j]))
      {
        NextVisit(visits, line, visitors, j);
        var more := VisitOne(camera, line, visitors[j]);
        crossings := crossings + more;
      }
      assert visitors[..|visitors|] == visitors;
    }

    /** `process_frame`. */
    method ProcessFrame(camera: string, visitors: seq<Seen>) returns (crossings: seq<Crossing>)
      requires Valid()
      modifies this`states, this`model, states.Values
      ensures Valid() && fresh(states.Values - old(states.Values))
      ensures (model, crossings) == Apply(old(model), Frame(camera, visitors))
    {
      hide Visit, Row, Stands;
      ghost var d := model;
      var active := SelectActive(if camera in lines then lines[camera] else []);
      crossings := [];
      if active == [] || visitors == [] {
        NoVisits(active, visitors);
        return;
      }
      for i := 0 to |active|
        invariant Valid() && fresh(states.Values - old(states.Values)) && model.lines == d.lines
        invariant (model.states, crossings) == VisitAll(d.states, camera, Visits(active[..i], visitors))
      {
        assert active[..i + 1][..i] == active[..i];
        crossings := VisitRow(camera, active[i], visitors, crossings, d.states, Visits(active[..i], visitors));
      }
      assert active[..|active|] == active;
    }

    method SelectActive(all: seq<Line>) returns (active: seq<Line>)
      ensures active == Active(all)
    {
      active := [];
      for i := 0 to |all|
        invariant active == Active(all[..i])
      {
        assert all[..i + 1][..i] == all[..i];
        if all[i].active {
          active := active + [all[i]];
        }
      }
      assert all[..|all|] == all;
    }

    /** `purge_visitor`. */
    method PurgeVisitor(camera: string, visitor: int)
      requires Valid()
      modifies this`states, this`model
      ensures Valid() && model == Apply(old(model), Purge(camera, visitor)).0
    {
      states := map k | k in states && !(k.0 == camera && k.2 == visitor) :: states[k];
      model := model.(states := map k | k in model.states && !(k.0 == camera && k.2 == visitor) :: model.states[k]);
      forall k | k in states ensures Stands(k) {
        assert old(Stands(k));
      }
    }

    method DropLine(camera: string, lineId: string) returns (kept: seq<Line>)
      ensures kept == Without(LinesOf(Detector(lines, map[]), camera), lineId)
    {
      var all := if camera in lines then lines[camera] else [];
      kept := [];
      for i := 0 to |all|
        invariant kept == Without(all[..i], lineId)
      {
        assert all[..i + 1][..i] == all[..i];
        if all[i].id != lineId {
          kept := kept + [all[i]];
        }
      }
      assert all[..|all|] == all;
    }

    /** `add_line`: replaces a line with the same id. */
    method AddLine(camera: string, line: Line)
      requires Valid()
      modifies this`lines, this`model
      ensures Valid() && model == Apply(old(model), Op.AddLine(camera, line)).0
    {
      var kept := DropLine(camera, line.id);
      lines := lines[camera := kept + [line]];
      model := model.(lines := lines);
      forall k | k in states ensures Stands(k) {
        assert old(Stands(k));
      }
    }

    /** `remove_line`: also forgets every visitor's state on the line, and says
        whether there was such a line. */
    method RemoveLine(camera: string, lineId: string) returns (removed: bool)
      requires Valid()
      modifies this
      ensures Valid() && model == Apply(old(model), Op.RemoveLine(camera, lineId)).0
      ensures removed <==> exists k ::
                0 <= k < |LinesOf(old(model), camera)| && LinesOf(old(model), camera)[k].id == lineId
    {
      WithoutShrinks(LinesOf(model, camera), lineId);
      ghost var before := LinesOf(model, camera);
      var kept := DropLine(camera, lineId);
      removed := |kept| < if camera in lines then |lines[camera]| else 0;
      assert removed <==> |Without(before, lineId)| < |before|;
      lines := lines[camera := kept];
      ForgetLine(camera, lineId);
    }

    method ForgetLine(camera: string, lineId: string)
      requires model.states.Keys == states.Keys
      requires forall k {:trigger Stands(k)} :: k in states ==> Stands(k)
      requires forall j, k :: j in states && k in states && j != k ==> states[j] != states[k]
      modifies this`states, this`model
      ensures Valid()
      ensures model == Detector(lines,
                map k | k in old(model).states && !(k.0 == camera && k.1 == lineId) :: old(model).states[k])
    {
      states := map k | k in states && !(k.0 == camera && k.1 == lineId) :: states[k];
      model := Detector(lines, map k | k in model.states && !(k.0 == camera && k.1 == lineId) :: model.states[k]);
      forall k | k in states ensures Stands(k) {
        assert old(Stands(k));
      }
    }
  }

  lemma {:induction false} WithoutShrinks(lines: seq<Line>, lineId: string)
    ensures |Without(lines, lineId)| <= |lines|
    ensures |Without(lines, lineId)| < |lines| <==> exists k :: 0 <= k < |lines| && lines[k].id == lineId
  {
    if lines != [] {
      var n := |lines| - 1;
      WithoutShrinks(lines[..n], lineId);
      assert forall k :: 0 <= k < n ==> lines[..n][k] == lines[k];
    }
  }

  lemma {:induction false} NoVisits(lines: seq<Line>, visitors: seq<Seen>)
    requires lines == [] || visitors == []
    ensures Visits(lines, visitors) == []
  {
    if lines != [] {
      NoVisits(lines[..|lines| - 1], visitors);
    }
  }

  lemma NextVisit(visits: seq<(Line, Seen)>, l: Line, visitors: seq<Seen>, j: nat)
    requires j < |visitors|
    ensures var now, next := visits + Row(l, visitors[..j]), visits + Row(l, visitors[..j + 1]);
            next == now + [(l, visitors[j])] && next[..|now|] == now
  {
    assert visitors[..j + 1][..j] == visitors[..j];
  }
}
