/** CPU affinity masks as text: the printer `affinity_mask_to_string` and the
    parser `affinity_string_to_mask`, and the proof that they undo each other. */
module Affinity {
  import opened Strtoul

  const CPUS := 64

  /** A 64-bit mask, as the set of the positions of its 1 bits: testing
      `mask & (1LL << i)` is membership, or-ing in `1LL << i` adds i. */
  type Mask = m: set<int> | forall i :: i in m ==> 0 <= i < CPUS

  /** `list_t`; a slot nobody has filled is (-1, -1). */
  datatype Range = Range(first: int, last: int)

  const UNSET := Range(-1, -1)

  /** What a call comes to: a return code, or an access outside `set[64]` or a
      shift count outside 0..63, for which C defines no behaviour. */
  datatype Outcome = Code(ret: int) | Undefined

  /** A string pointer that may be null. */
  datatype Pointer = Null | To(text: CString)

  // ----- runs of consecutive CPUs

  function Init<T>(s: seq<T>): seq<T>
    requires s != []
  {
    s[..|s| - 1]
  }

  function Last<T>(s: seq<T>): T
    requires s != []
  {
    s[|s| - 1]
  }

  predicate Within(r: Range, cpu: int) {
    r.first <= cpu <= r.last
  }

  function Span(r: Range): set<int> {
    set cpu | r.first <= cpu <= r.last && Within(r, cpu)
  }

  function Union(ranges: seq<Range>): set<int> {
    if ranges == [] then {} else Union(Init(ranges)) + Span(Last(ranges))
  }

  function Below(mask: set<int>, i: int): set<int> {
    set cpu | cpu in mask && cpu < i
  }

  /** The runs among the CPUs below i, in ascending order. */
  function RunsBelow(mask: set<int>, i: nat): seq<Range> {
    if i == 0 then []
    else
      var runs := RunsBelow(mask, i - 1);
      if i - 1 !in mask then runs
      else if runs != [] && Last(runs).last == i - 2 then Init(runs) + [Range(Last(runs).first, i - 1)]
      else runs + [Range(i - 1, i - 1)]
  }

  function Runs(mask: Mask): seq<Range> {
    RunsBelow(mask, CPUS)
  }

  /** Runs are non-empty and ascend with a gap between neighbours, so they are
      disjoint and none can be made longer without swallowing an absent CPU. */
  ghost predicate Canonical(runs: seq<Range>) {
    runs == [] || (
      && Canonical(Init(runs))
      && 0 <= Last(runs).first <= Last(runs).last
      && (|runs| > 1 ==> Last(Init(runs)).last + 1 < Last(runs).first)
    )
  }

  lemma {:induction false} RunsBelowExact(mask: set<int>, i: nat)
    requires forall cpu :: cpu in mask ==> cpu >= 0
    ensures Canonical(RunsBelow(mask, i))
    ensures RunsBelow(mask, i) != [] ==> Last(RunsBelow(mask, i)).last < i
    ensures Union(RunsBelow(mask, i)) == Below(mask, i)
  {
    if i > 0 {
      RunsBelowExact(mask, i - 1);
      var before, runs := RunsBelow(mask, i - 1), RunsBelow(mask, i);
      if i - 1 !in mask {
        assert Below(mask, i) == Below(mask, i - 1);
      } else {
        assert Below(mask, i) == Below(mask, i - 1) + {i - 1};
        if before != [] && Last(before).last == i - 2 {
          assert Init(runs) == Init(before);
          assert Span(Last(runs)) == Span(Last(before)) + {i - 1};
        } else {
          assert Init(runs) == before;
          assert Span(Last(runs)) == {i - 1};
        }
      }
    }
  }

  lemma {:induction false} CanonicalBounds(runs: seq<Range>, cpu: int)
    requires Canonical(runs) && cpu in Union(runs)
    ensures 0 <= cpu <= Last(runs).last
  {
    if cpu !in Span(Last(runs)) {
      CanonicalBounds(Init(runs), cpu);
    }
  }

  lemma LastRun(runs: seq<Range>, cpu: int)
    requires Canonical(runs) && runs != []
    ensures cpu in Union(runs) ==> cpu <= Last(runs).last
    ensures cpu in Span(Last(runs)) ==> cpu in Union(runs)
    ensures cpu in Union(Init(runs)) <==> cpu in Union(runs) && cpu < Last(runs).first
    ensures Last(runs).first - 1 !in Union(runs)
  {
    forall c | c in Union(Init(runs)) ensures c < Last(runs).first - 1 {
      CanonicalBounds(Init(runs), c);
    }
    assert Union(runs) == Union(Init(runs)) + Span(Last(runs));
    if cpu in Union(runs) {
      CanonicalBounds(runs, cpu);
    }
  }

  /** A list of runs in canonical form is the only one with its union. */
  lemma {:induction false} CanonicalUnique(a: seq<Range>, b: seq<Range>)
    requires Canonical(a) && Canonical(b) && Union(a) == Union(b)
    ensures a == b
  {
    if a != [] {
      LastRun(a, Last(a).last);
    }
    if b != [] {
      LastRun(b, Last(b).last);
    }
    if a != [] {
      SameLast(a, b);
      forall cpu ensures cpu in Union(Init(a)) <==> cpu in Union(Init(b)) {
        LastRun(a, cpu);
        LastRun(b, cpu);
      }
      CanonicalUnique(Init(a), Init(b));
      assert a == Init(a) + [Last(a)] && b == Init(b) + [Last(b)];
    }
  }

  /** The runs that are printed are the maximal runs of the mask: the one list
      in canonical form that covers exactly its CPUs. */
  lemma RunsAreMaximal(mask: Mask, runs: seq<Range>)
    ensures Canonical(runs) && Union(runs) == mask <==> runs == Runs(mask)
  {
    RunsBelowExact(mask, CPUS);
    assert Below(mask, CPUS) == mask;
    if Canonical(runs) && Union(runs) == mask {
      CanonicalUnique(runs, Runs(mask));
    }
  }

  lemma SameLast(a: seq<Range>, b: seq<Range>)
    requires Canonical(a) && Canonical(b) && a != [] && b != [] && Union(a) == Union(b)
    ensures Last(a) == Last(b)
  {
    LastRun(a, Last(a).last);
    LastRun(a, Last(b).last);
    LastRun(b, Last(a).last);
    LastRun(b, Last(b).last);
    LastRun(a, Last(b).first);
    LastRun(b, Last(a).first);
    LastRun(a, Last(b).first - 1);
    LastRun(b, Last(a).first - 1);
  }

  // ----- printing

  /** `%u` given an int. */
  function Unsigned(i: int): CString {
    Decimal(i % ULONG_RANGE)
  }

  /** One run: two CPUs in a row take a comma, more take a hyphen. */
  function RunText(r: Range): CString {
    if r.last == r.first then Unsigned(r.first)
    else if r.last == r.first + 1 then Unsigned(r.first) + "," + Unsigned(r.last)
    else Unsigned(r.first) + "-" + Unsigned(r.last)
  }

  function RunsText(runs: seq<Range>): CString {
    if runs == [] then ""
    else if |runs| == 1 then RunText(runs[0])
    else RunsText(Init(runs)) + "," + RunText(Last(runs))
  }

  function MaskText(mask: Mask): CString {
    RunsText(Runs(mask))
  }

  /** What a mask is printed as; the zero mask is given a null pointer. */
  function Printed(mask: Mask): Pointer {
    if mask == {} then Null else To(MaskText(mask))
  }

  /** The cells of a buffer up to its first NUL are the string s. */
  ghost predicate Holds(buffer: array<char>, s: CString)
    reads buffer
  {
    |s| < buffer.Length && buffer[..|s|] == s && buffer[|s|] == '\0'
  }

  /** `_sntprintf_s(buffer + at, size, _TRUNCATE, ...)`: writes the text and a
      NUL, and gives -1 when they do not fit into size cells. */
  method PrintAt(buffer: array<char>, at: nat, size: nat, text: CString) returns (ret: int)
    requires 0 < size && at + size <= buffer.Length
    modifies buffer
    ensures ret == if |text| < size then |text| else -1
    ensures ret >= 0 ==> buffer[..at + |text|] == old(buffer[..at]) + text && buffer[at + |text|] == '\0'
  {
    var n := if |text| < size then |text| else size - 1;
    for k := 0 to n
      invariant buffer[..at + k] == old(buffer[..at]) + text[..k]
    {
      buffer[at + k] := text[k];
      assert buffer[..at + k + 1] == buffer[..at + k] + [text[k]];
    }
    buffer[at + n] := '\0';
    assert text[..|text|] == text;
    ret := if |text| < size then |text| else -1;
  }

  lemma {:induction false} CanonicalRuns(runs: seq<Range>, k: nat)
    requires Canonical(runs) && k < |runs|
    ensures 0 <= runs[k].first <= runs[k].last <= Last(runs).last
  {
    if k < |runs| - 1 {
      CanonicalRuns(Init(runs), k);
    }
  }

  /** The first loop of `affinity_mask_to_string`: collects the runs of a mask
      that is not zero into an array, and gives the index of the last one. */
  method CollectRuns(mask: Mask) returns (runs: array<Range>, n: nat)
    requires mask != {}
    ensures fresh(runs) && n < runs.Length == CPUS
    ensures runs[..n + 1] == Runs(mask)
  {
    runs := new Range[CPUS](_ => UNSET);
    n := 0;
    for i := 0 to CPUS
      invariant n <= i && n < CPUS
      invariant runs[n] == UNSET ==> RunsBelow(mask, i) == [] && n == 0
      invariant runs[n] != UNSET ==> n < i && runs[n].first >= 0 && RunsBelow(mask, i) == runs[..n + 1]
    {
      ghost var before := RunsBelow(mask, i);
      assert runs[n] != UNSET ==> Init(before) == runs[..n] && Last(before) == runs[n];
      if i in mask {
        if runs[n].first == -1 {
          runs[n] := Range(i, i);
        } else if runs[n].last == i - 1 {
          runs[n] := Range(runs[n].first, i);
          assert runs[..n + 1] == Init(before) + [runs[n]];
        } else {
          n := n + 1;
          runs[n] := Range(i, i);
          assert runs[..n + 1] == before + [runs[n]];
        }
      }
    }
    RunsBelowExact(mask, CPUS);
    assert Below(mask, CPUS) == mask;
  }

  lemma PrintedLength(i: int)
    requires 0 <= i < CPUS
    ensures 0 < |Unsigned(i)| <= 2
  {
    DecimalLength(i);
    DecimalDigits(i);
  }

  /** Prints one run at position at. The two sizes handed to the formatted
      print together never exceed the 6 cells allowed for a run. */
  method PrintRun(text: array<char>, at: nat, r: Range) returns (ret: int, s: nat)
    requires 0 <= r.first <= r.last < CPUS
    requires at + 6 <= text.Length
    modifies text
    ensures ret == 0 && s == at + |RunText(r)| <= at + 5
    ensures text[..s] == old(text[..at]) + RunText(r) && text[s] == '\0'
  {
    hide Unsigned;
    PrintedLength(r.first);
    PrintedLength(r.last);
    ghost var before := text[..at];
    ret := PrintAt(text, at, 3, Unsigned(r.first));
    if ret < 0 {
      return 3, at;
    }
    s := at + ret;
    if r.last != r.first {
      ret, s := PrintUpper(text, s, r, before);
      assert |text[..s]| == |before| + |RunText(r)|;
    } else {
      ret := 0;
    }
  }

  /** The part of a run after its first CPU. */
  method PrintUpper(text: array<char>, at: nat, r: Range, ghost before: string) returns (ret: int, s: nat)
    requires 0 <= r.first < r.last < CPUS && at + 4 <= text.Length
    requires text[..at] == before + Unsigned(r.first)
    modifies text
    ensures ret == 0 && at < s <= at + 3 && s < text.Length
    ensures text[..s] == before + RunText(r) && text[s] == '\0'
  {
    hide Unsigned;
    PrintedLength(r.last);
    var sign := if r.last == r.first + 1 then "," else "-";
    ret := PrintAt(text, at, 4, sign + Unsigned(r.last));
    if ret < 0 {
      return 4, at;
    }
    Joined(before, Unsigned(r.first), sign, Unsigned(r.last));
    ret, s := 0, at + ret;
  }

  lemma Joined(a: string, b: string, c: string, d: string)
    ensures a + b + (c + d) == a + (b + c + d)
  {}

  lemma RunsInBounds(mask: Mask, k: nat)
    requires k < |Runs(mask)|
    ensures 0 <= Runs(mask)[k].first <= Runs(mask)[k].last < CPUS
  {
    RunsBelowExact(mask, CPUS);
    CanonicalRuns(Runs(mask), k);
  }

  /** The second loop: prints the runs collected, with commas between them. */
  method PrintRuns(mask: Mask, runs: array<Range>, n: nat) returns (ret: int, text: array<char>)
    requires n < runs.Length && runs[..n + 1] == Runs(mask)
    ensures fresh(text) && text.Length == 6 * |Runs(mask)|
    ensures ret == 0 && Holds(text, MaskText(mask))
  {
    ghost var all := Runs(mask);
    text := new char[(n + 1) * 6](_ => '\0');
    var s := 0;
    for i := 0 to n + 1
      invariant if i == 0 then s == 0 else 0 < s <= 6 * i - 1 && text[s] == '\0'
      invariant text[..s] == RunsText(all[..i])
    {
      if i != 0 {
        text[s] := ',';
        s := s + 1;
      }
      RunsInBounds(mask, i);
      assert runs[i] == all[i] && Init(all[..i + 1]) == all[..i];
      assert text[..s] == RunsText(all[..i]) + if i != 0 then "," else "";
      ret, s := PrintRun(text, s, runs[i]);
      if ret != 0 {
        return;
      }
    }
    assert all[..n + 1] == all;
    ret := 0;
  }

  /** `affinity_mask_to_string`. */
  method MaskToString(mask: Mask) returns (ret: int, text: array?<char>)
    ensures ret == 0
    ensures text == null <==> Printed(mask) == Null
    ensures text != null ==> Holds(text, Printed(mask).text) && text.Length == 6 * |Runs(mask)|
  {
    if mask == {} {
      return 0, null;
    }
    var runs, n := CollectRuns(mask);
    ret, text := PrintRuns(mask, runs, n);
  }
}
