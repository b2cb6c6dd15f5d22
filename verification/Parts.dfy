/** What a filter leaves of a list: the part at some ascending indices. */
module Parts {

  /** Indices that ascend. */
  ghost predicate Ascending(at: seq<nat>) {
    forall j, k :: 0 <= j < k < |at| ==> at[j] < at[k]
  }

  /** r is the part of s at some indices, in order. */
  ghost predicate PartAt<T>(r: seq<T>, s: seq<T>, at: seq<nat>) {
    |at| == |r| && Ascending(at) && forall k :: 0 <= k < |at| ==> at[k] < |s| && r[k] == s[at[k]]
  }

  lemma PartSnoc<T>(r: seq<T>, s: seq<T>, at: seq<nat>, chosen: bool)
    requires s != [] && PartAt(r, s[..|s| - 1], at)
    ensures var n := |s| - 1;
            var at' := at + if chosen then [n] else [];
            && PartAt(r + if chosen then [s[n]] else [], s, at')
            && (forall i :: i in at' <==> i in at || (chosen && i == n))
            && (forall i :: i in at ==> i < n)
  {}

  lemma NoPart<T>()
    ensures PartAt<T>([], [], [])
  {}

  /** The part at all the indices that are wanted. */
  ghost predicate PartWhere<T>(r: seq<T>, s: seq<T>, wanted: set<nat>) {
    exists at: seq<nat> :: PartAt(r, s, at) && forall i :: 0 <= i < |s| ==> (i in at <==> i in wanted)
  }

  lemma PartWhereSnoc<T>(r: seq<T>, s: seq<T>, wanted: set<nat>, all: set<nat>)
    requires s != [] && PartWhere(r, s[..|s| - 1], wanted)
    requires forall i :: 0 <= i < |s| - 1 ==> (i in all <==> i in wanted)
    ensures PartWhere(r + if |s| - 1 in all then [s[|s| - 1]] else [], s, all)
  {
    var n := |s| - 1;
    var at: seq<nat> :| PartAt(r, s[..n], at) && forall i :: 0 <= i < n ==> (i in at <==> i in wanted);
    PartSnoc(r, s, at, n in all);
    var more := at + if n in all then [n] else [];
    assert forall i :: 0 <= i < |s| ==> (i in more <==> i in all);
  }

  lemma NothingWhere<T>(wanted: set<nat>)
    ensures PartWhere<T>([], [], wanted)
  {
    NoPart<T>();
  }

  lemma PartWhereCons<T>(r: seq<T>, s: seq<T>, wanted: set<nat>, all: set<nat>)
    requires s != [] && PartWhere(r, s[1..], wanted)
    requires forall i :: 0 <= i < |s| - 1 ==> (i + 1 in all <==> i in wanted)
    ensures PartWhere((if 0 in all then [s[0]] else []) + r, s, all)
  {
    var at: seq<nat> :| PartAt(r, s[1..], at) && forall i :: 0 <= i < |s| - 1 ==> (i in at <==> i in wanted);
    var moved: seq<nat> := seq(|at|, k requires 0 <= k < |at| => at[k] + 1);
    var more := (if 0 in all then [0] else []) + moved;
    MovedOn(at, moved);
    assert PartAt((if 0 in all then [s[0]] else []) + r, s, more);
    forall i | 0 <= i < |s| ensures i in more <==> i in all {
      if i > 0 {
        assert i in moved <==> i - 1 in at;
      }
    }
  }

  lemma MovedOn(at: seq<nat>, moved: seq<nat>)
    requires |moved| == |at| && forall k :: 0 <= k < |at| ==> moved[k] == at[k] + 1
    ensures forall i: nat :: i + 1 in moved <==> i in at
    ensures 0 !in moved
  {
    forall i: nat ensures i + 1 in moved <==> i in at {
      if i in at {
        var k :| 0 <= k < |at| && at[k] == i;
        assert moved[k] == i + 1;
      }
    }
  }
}
