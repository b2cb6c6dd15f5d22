/** `hungarian_match`: what is kept of the solver's answer, and that matches and
    unmatched rows and columns together are all the rows and columns. */
module Matching {

  type Pair = (nat, nat)

  /** The solver's contract: pairs of a row and a column, none used twice. The
      costs and which pairs it prefers are arbitrary. */
  ghost predicate IsAssignment(pairs: seq<Pair>, rows: nat, cols: nat) {
    && (forall k :: 0 <= k < |pairs| ==> pairs[k].0 < rows && pairs[k].1 < cols)
    && (forall j, k :: 0 <= j < k < |pairs| ==> pairs[j].0 != pairs[k].0 && pairs[j].1 != pairs[k].1)
  }

  ghost predicate IsMatrix(cost: seq<seq<real>>, rows: nat, cols: nat) {
    |cost| == rows && forall r :: 0 <= r < rows ==> |cost[r]| == cols
  }

  /** The pairs whose cost is within the threshold, in the solver's order. */
  function Kept(cost: seq<seq<real>>, pairs: seq<Pair>, threshold: real): seq<Pair>
    requires forall k :: 0 <= k < |pairs| ==> pairs[k].0 < |cost| && pairs[k].1 < |cost[pairs[k].0]|
  {
    if pairs == [] then []
    else
      var last := pairs[|pairs| - 1];
      Kept(cost, pairs[..|pairs| - 1], threshold) + if cost[last.0][last.1] <= threshold then [last] else []
  }

  /** The numbers below n that are not in a set, ascending. */
  function Missing(n: nat, used: set<nat>): seq<nat> {
    if n == 0 then [] else Missing(n - 1, used) + if n - 1 in used then [] else [n - 1]
  }

  function Rows(matches: seq<Pair>): set<nat> {
    set k | 0 <= k < |matches| :: matches[k].0
  }

  function Cols(matches: seq<Pair>): set<nat> {
    set k | 0 <= k < |matches| :: matches[k].1
  }

  lemma {:induction false} MissingExact(n: nat, used: set<nat>)
    ensures forall i: nat :: i in Missing(n, used) <==> i < n && i !in used
    ensures forall k :: 0 <= k < |Missing(n, used)| ==> Missing(n, used)[k] < n && Missing(n, used)[k] !in used
    ensures forall j, k :: 0 <= j < k < |Missing(n, used)| ==> Missing(n, used)[j] < Missing(n, used)[k]
  {
    if n > 0 {
      MissingExact(n - 1, used);
      var m := Missing(n - 1, used);
      forall k | 0 <= k < |m| ensures m[k] < n - 1 {
        assert m[k] in m;
      }
    }
  }

  lemma {:induction false} MissingCount(n: nat, used: set<nat>)
    requires forall i :: i in used ==> i < n
    ensures |Missing(n, used)| + |used| == n
  {
    if n > 0 {
      MissingCount(n - 1, used - {n - 1});
      SameMissing(n - 1, used, used - {n - 1});
    }
  }

  lemma {:induction false} SameMissing(n: nat, a: set<nat>, b: set<nat>)
    requires forall i :: 0 <= i < n ==> (i in a <==> i in b)
    ensures Missing(n, a) == Missing(n, b)
  {
    if n > 0 {
      SameMissing(n - 1, a, b);
    }
  }

  lemma {:induction false} KeptIsAssignment(cost: seq<seq<real>>, pairs: seq<Pair>, threshold: real, rows: nat,
                                            cols: nat)
    requires IsMatrix(cost, rows, cols) && IsAssignment(pairs, rows, cols)
    ensures IsAssignment(Kept(cost, pairs, threshold), rows, cols)
    ensures forall p :: p in Kept(cost, pairs, threshold) <==> p in pairs && cost[p.0][p.1] <= threshold
  {
    if pairs != [] {
      var init, last := pairs[..|pairs| - 1], pairs[|pairs| - 1];
      KeptIsAssignment(cost, init, threshold, rows, cols);
      var kept := Kept(cost, init, threshold);
      assert pairs == init + [last];
      forall k | 0 <= k < |kept| ensures kept[k].0 != last.0 && kept[k].1 != last.1 {
        assert kept[k] in init;
      }
    }
  }

  lemma {:induction false} RowsCount(matches: seq<Pair>, rows: nat, cols: nat)
    requires IsAssignment(matches, rows, cols)
    ensures |Rows(matches)| == |matches| == |Cols(matches)|
  {
    if matches != [] {
      var init, last := matches[..|matches| - 1], matches[|matches| - 1];
      assert matches == init + [last];
      InitIsAssignment(matches, rows, cols);
      hide Rows, Cols, IsAssignment;
      RowsCount(init, rows, cols);
      RowsSnoc(init, last);
    } else {
      assert Rows(matches) == {} && Cols(matches) == {};
    }
  }

  lemma InitIsAssignment(matches: seq<Pair>, rows: nat, cols: nat)
    requires IsAssignment(matches, rows, cols) && matches != []
    ensures var init, last := matches[..|matches| - 1], matches[|matches| - 1];
            IsAssignment(init, rows, cols) && last.0 !in Rows(init) && last.1 !in Cols(init)
  {}

  lemma RowsSnoc(matches: seq<Pair>, p: Pair)
    ensures Rows(matches + [p]) == Rows(matches) + {p.0}
    ensures Cols(matches + [p]) == Cols(matches) + {p.1}
  {
    var all := matches + [p];
    assert all[|matches|] == p;
    forall r ensures r in Rows(all) <==> r in Rows(matches) + {p.0} {
      if r in Rows(matches) {
        var k :| 0 <= k < |matches| && matches[k].0 == r;
        assert all[k].0 == r;
      }
    }
    forall c ensures c in Cols(all) <==> c in Cols(matches) + {p.1} {
      if c in Cols(matches) {
        var k :| 0 <= k < |matches| && matches[k].1 == c;
        assert all[k].1 == c;
      }
    }
  }

  /** Every row is either in exactly one match or listed as unmatched, never
      both; so is every column, and the counts add up. */
  lemma Partition(cost: seq<seq<real>>, pairs: seq<Pair>, threshold: real, rows: nat, cols: nat)
    requires IsMatrix(cost, rows, cols) && IsAssignment(pairs, rows, cols)
    ensures var matches := Kept(cost, pairs, threshold);
            var unmatchedRows, unmatchedCols := Missing(rows, Rows(matches)), Missing(cols, Cols(matches));
            && IsAssignment(matches, rows, cols)
            && |matches| + |unmatchedRows| == rows && |matches| + |unmatchedCols| == cols
            && (forall r: nat :: r < rows ==> (r in Rows(matches) <==> r !in unmatchedRows))
            && (forall c: nat :: c < cols ==> (c in Cols(matches) <==> c !in unmatchedCols))
  {
    var matches := Kept(cost, pairs, threshold);
    KeptIsAssignment(cost, pairs, threshold, rows, cols);
    RowsCount(matches, rows, cols);
    MissingExact(rows, Rows(matches));
    MissingExact(cols, Cols(matches));
    MissingCount(rows, Rows(matches));
    MissingCount(cols, Cols(matches));
  }

  /** `hungarian_match` with the solver's answer as an input. A matrix without
      cells never reaches the solver. */
  method HungarianMatch(cost: seq<seq<real>>, rows: nat, cols: nat, pairs: seq<Pair>, threshold: real)
    returns (matches: seq<Pair>, unmatchedRows: seq<nat>, unmatchedCols: seq<nat>)
    requires IsMatrix(cost, rows, cols) && IsAssignment(pairs, rows, cols)
    ensures matches == Kept(cost, pairs, threshold)
    ensures unmatchedRows == Missing(rows, Rows(matches)) && unmatchedCols == Missing(cols, Cols(matches))
  {
    matches, unmatchedRows, unmatchedCols := [], [], [];
    if rows == 0 || cols == 0 {
      NoPairs(pairs, rows, cols);
      unmatchedRows := UpTo(rows, {});
      unmatchedCols := UpTo(cols, {});
      assert Rows([]) == {} && Cols([]) == {};
      return;
    }
    var matchedRows: set<nat>, matchedCols: set<nat> := {}, {};
    for k := 0 to |pairs|
      invariant matches == Kept(cost, pairs[..k], threshold)
      invariant matchedRows == Rows(matches) && matchedCols == Cols(matches)
    {
      assert pairs[..k + 1][..k] == pairs[..k];
      var (r, c) := pairs[k];
      if cost[r][c] <= threshold {
        RowsSnoc(matches, (r, c));
        matches := matches + [(r, c)];
        matchedRows := matchedRows + {r};
        matchedCols := matchedCols + {c};
      }
    }
    assert pairs[..|pairs|] == pairs;
    unmatchedRows := UpTo(rows, matchedRows);
    unmatchedCols := UpTo(cols, matchedCols);
  }

  lemma NoPairs(pairs: seq<Pair>, rows: nat, cols: nat)
    requires IsAssignment(pairs, rows, cols) && (rows == 0 || cols == 0)
    ensures pairs == []
  {
    var first := if |pairs| > 0 then pairs[0] else (rows, cols);
    assert |pairs| > 0 ==> first.0 < rows && first.1 < cols;
  }

  method UpTo(n: nat, used: set<nat>) returns (missing: seq<nat>)
    ensures missing == Missing(n, used)
  {
    missing := [];
    for i := 0 to n
      invariant missing == Missing(i, used)
    {
      if i !in used {
        missing := missing + [i];
      }
    }
  }
}
