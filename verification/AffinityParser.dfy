/** The parser `affinity_string_to_mask`: what it reads, exactly when it is
    defined, and that it undoes the printer. */
module AffinityParser {
  import opened Strtoul
  import opened Affinity

  /** What the reading loop leaves behind: the slots it filled, the error code
      it returned early, or a use of a slot beyond the 64 of `set`. A slot
      opened by a comma (or by starting) that no number fills is (-1, -1). */
  datatype Parsed = Items(items: seq<Range>) | Fail(code: int) | Overrun {
    function After(before: seq<Range>): Parsed {
      if Items? then Items(before + items) else this
    }
  }

  /** A C cast from `unsigned long` to `int`. */
  function AsInt(value: nat): int
    requires value < ULONG_RANGE
  {
    if value < ULONG_RANGE / 2 then value else value - ULONG_RANGE
  }

  /** One turn of the reading loop: the item at the front of s and what is
      left after it (nothing, or a comma and more), or the error it meets. */
  datatype Turn = Item(item: Range, rest: string) | Bad(code: int)

  function NextItem(s: string): (t: Turn)
    requires s != ""
    ensures t.Item? ==> |t.rest| <= |s| && (t.rest == "" || t.rest[0] == ',')
  {
    var (number, used) := Read(s);
    var rest := s[used..];
    if number >= CPUS then Bad(2)
    else if rest == "" || rest[0] == ',' then Item(Range(number, number), rest)
    else if rest[0] != '-' || rest == "-" then Bad(3)
    else UpperEnd(number, rest[1..])
  }

  /** After the hyphen: the upper end may be any number at all. */
  function UpperEnd(number: int, s: string): (t: Turn)
    ensures t.Item? ==> |t.rest| <= |s| && (t.rest == "" || t.rest[0] == ',')
  {
    var (upper, used) := Read(s);
    var rest := s[used..];
    if rest == "" || rest[0] == ',' then Item(Range(number, AsInt(upper)), rest) else Bad(3)
  }

  /** The reading loop on the text s with slot n current. */
  function Parse(s: string, n: nat): Parsed {
    if s == "" then
      if n < CPUS then Items([UNSET]) else Overrun
    else
      match NextItem(s)
      case Bad(code) => if code != 2 && n >= CPUS then Overrun else Fail(code)
      case Item(item, rest) =>
        if n >= CPUS then Overrun
        else if rest == "" then Items([item])
        else Parse(rest[1..], n + 1).After([item])
  }

  /** Every shift count the final loop uses is one C allows. */
  predicate Shiftable(items: seq<Range>) {
    forall k :: 0 <= k < |items| && items[k].first <= items[k].last ==>
                  0 <= items[k].first && items[k].last < CPUS
  }

  /** What the slots come to in the final loop. */
  function Shifted(parsed: Parsed): (r: (Outcome, Mask)) {
    match parsed
    case Fail(code) => (Code(code), {})
    case Overrun => (Undefined, {})
    case Items(items) =>
      if Shiftable(items) then (Code(0), set cpu | 0 <= cpu < CPUS && cpu in Union(items)) else (Undefined, {})
  }

  /** The whole parser: return code and mask. A null string is the zero mask. */
  function ReadMask(text: Pointer): (Outcome, Mask) {
    match text
    case Null => (Code(0), {})
    case To(s) => Shifted(Parse(s, 0))
  }

  /** The text of items: numbers and number-number ranges between commas. */
  function ItemText(item: Range): CString {
    if item.first == item.last then Unsigned(item.first) else Unsigned(item.first) + "-" + Unsigned(item.last)
  }

  function ItemsText(items: seq<Range>): CString
    requires items != []
  {
    if |items| == 1 then ItemText(items[0]) else ItemText(items[0]) + "," + ItemsText(items[1..])
  }

  /** A first number the parser takes and any upper end it can hold in an int. */
  ghost predicate WellFormed(items: seq<Range>) {
    forall k :: 0 <= k < |items| ==> 0 <= items[k].first < CPUS && 0 <= items[k].last < ULONG_RANGE / 2
  }

  lemma NextNumber(i: int, tail: string)
    requires 0 <= i < CPUS
    requires tail == "" || tail[0] == ','
    ensures Unsigned(i) != "" && NextItem(Unsigned(i) + tail) == Item(Range(i, i), tail)
  {
    hide Read, Decimal;
    DecimalDigits(i);
    ReadDecimal(i, tail);
    assert (Unsigned(i) + tail)[|Unsigned(i)|..] == tail;
  }

  lemma UpperNumber(first: int, last: int, tail: string)
    requires 0 <= last < ULONG_RANGE / 2
    requires tail == "" || tail[0] == ','
    ensures Unsigned(last) != ""
    ensures UpperEnd(first, Unsigned(last) + tail) == Item(Range(first, last), tail)
  {
    hide Read, Decimal;
    DecimalDigits(last);
    ReadDecimal(last, tail);
    assert (Unsigned(last) + tail)[|Unsigned(last)|..] == tail;
  }

  lemma NextHyphen(first: int, upper: string)
    requires 0 <= first < CPUS && upper != ""
    ensures Unsigned(first) != ""
    ensures NextItem(Unsigned(first) + ("-" + upper)) == UpperEnd(first, upper)
  {
    hide Read, Decimal, UpperEnd;
    DecimalDigits(first);
    ReadDecimal(first, "-" + upper);
    assert (Unsigned(first) + ("-" + upper))[|Unsigned(first)|..] == "-" + upper;
    assert ("-" + upper)[1..] == upper;
  }

  lemma NextItemText(item: Range, tail: string)
    requires 0 <= item.first < CPUS && 0 <= item.last < ULONG_RANGE / 2
    requires tail == "" || tail[0] == ','
    ensures ItemText(item) != "" && NextItem(ItemText(item) + tail) == Item(item, tail)
  {
    hide NextItem, UpperEnd, Decimal;
    if item.first == item.last {
      NextNumber(item.first, tail);
    } else {
      UpperNumber(item.first, item.last, tail);
      NextHyphen(item.first, Unsigned(item.last) + tail);
      assert ItemText(item) + tail == Unsigned(item.first) + ("-" + (Unsigned(item.last) + tail));
    }
  }

  /** A comma list read from slot n on: exactly its items when the slots last,
      and otherwise a write beyond them; the parser does not count. */
  lemma {:induction false} ParseItems(items: seq<Range>, n: nat)
    requires items != [] && WellFormed(items)
    ensures Parse(ItemsText(items), n) == if n + |items| <= CPUS then Items(items) else Overrun
  {
    hide NextItem, Parse, ItemText, ItemsText;
    var item := items[0];
    assert items == [item] + items[1..];
    if |items| == 1 {
      LastItem(item, n);
      assert items == [item];
    } else {
      ParseItems(items[1..], n + 1);
      FirstItem(item, items[1..], n);
    }
  }

  lemma LastItem(item: Range, n: nat)
    requires WellFormed([item])
    ensures Parse(ItemsText([item]), n) == if n < CPUS then Items([item]) else Overrun
  {
    hide NextItem, ItemText;
    assert [item][0] == item;
    NextItemText(item, "");
    assert ItemText(item) + "" == ItemText(item);
  }

  lemma FirstItem(item: Range, more: seq<Range>, n: nat)
    requires more != [] && WellFormed([item] + more)
    ensures Parse(ItemsText([item] + more), n) ==
            if n >= CPUS then Overrun else Parse(ItemsText(more), n + 1).After([item])
  {
    hide NextItem, ItemText;
    var items, tail := [item] + more, "," + ItemsText(more);
    assert items[0] == item && items[1..] == more;
    NextItemText(item, tail);
    assert ItemsText(items) == ItemText(item) + tail;
    assert tail[1..] == ItemsText(more);
  }

  /** The meaning of a comma list of any length: it is read as the union of its
      ranges if there are at most 64 and every upper end that closes a non-empty
      range is a CPU, and otherwise the call runs into a slot or a shift C does
      not define; the parser never rejects it. */
  lemma Denotation(items: seq<Range>)
    requires items != [] && WellFormed(items)
    ensures ReadMask(To(ItemsText(items))) ==
            if |items| <= CPUS
               && forall k :: 0 <= k < |items| && items[k].first <= items[k].last ==> items[k].last < CPUS
            then (Code(0), Union(items)) else (Undefined, {})
  {
    hide Parse, ItemsText;
    ParseItems(items, 0);
    assert Shiftable(items) <==>
           forall k :: 0 <= k < |items| && items[k].first <= items[k].last ==> items[k].last < CPUS;
    if Shiftable(items) {
      UnionInBounds(items);
      assert (set cpu | 0 <= cpu < CPUS && cpu in Union(items)) == Union(items);
    }
  }

  lemma {:induction false} UnionInBounds(items: seq<Range>)
    requires Shiftable(items)
    ensures forall cpu :: cpu in Union(items) ==> 0 <= cpu < CPUS
  {
    if items != [] {
      assert Shiftable(Init(items)) by {
        assert forall k :: 0 <= k < |Init(items)| ==> Init(items)[k] == items[k];
      }
      UnionInBounds(Init(items));
      assert Last(items) == items[|items| - 1];
    }
  }

  // ----- the round trip

  /** The items a list of runs is printed as: a pair becomes two items. */
  function RunItems(runs: seq<Range>): seq<Range> {
    if runs == [] then [] else RunItems(Init(runs)) + OneRun(Last(runs))
  }

  function OneRun(r: Range): seq<Range> {
    if r.last == r.first + 1 then [Range(r.first, r.first), Range(r.last, r.last)] else [r]
  }

  lemma {:induction false} ItemsTextSplit(a: seq<Range>, b: seq<Range>)
    requires a != [] && b != []
    ensures ItemsText(a + b) == ItemsText(a) + "," + ItemsText(b)
  {
    assert (a + b)[1..] == a[1..] + b;
    if |a| > 1 {
      ItemsTextSplit(a[1..], b);
    }
  }

  lemma {:induction false} RunsTextIsItemsText(runs: seq<Range>)
    requires runs != []
    ensures RunItems(runs) != [] && RunsText(runs) == ItemsText(RunItems(runs))
  {
    var r := Last(runs);
    assert ItemsText(OneRun(r)) == RunText(r) by {
      if r.last == r.first + 1 {
        assert OneRun(r)[1..] == [Range(r.last, r.last)];
      }
    }
    if |runs| == 1 {
      assert RunItems(runs) == OneRun(r);
    } else {
      RunsTextIsItemsText(Init(runs));
      ItemsTextSplit(RunItems(Init(runs)), OneRun(r));
    }
  }

  /** There are never more items than CPUs. */
  lemma {:induction false} RunItemsInBounds(runs: seq<Range>)
    requires Canonical(runs) && (runs != [] ==> Last(runs).last < CPUS)
    ensures runs != [] ==> |RunItems(runs)| <= Last(runs).last + 1
    ensures forall item :: item in RunItems(runs) ==> 0 <= item.first <= item.last < CPUS
  {
    if runs != [] {
      RunItemsInBounds(Init(runs));
    }
  }

  lemma {:induction false} RunItemsUnion(runs: seq<Range>)
    ensures Union(RunItems(runs)) == Union(runs)
  {
    if runs != [] {
      var r := Last(runs);
      RunItemsUnion(Init(runs));
      UnionSplit(RunItems(Init(runs)), OneRun(r));
      assert Union([r]) == Span(r);
      if r.last == r.first + 1 {
        assert Init(OneRun(r)) == [Range(r.first, r.first)];
        assert Union(OneRun(r)) == Span(Range(r.first, r.first)) + Span(Range(r.last, r.last)) == Span(r);
      }
    }
  }

  lemma {:induction false} UnionSplit(a: seq<Range>, b: seq<Range>)
    ensures Union(a + b) == Union(a) + Union(b)
  {
    if b == [] {
      assert a + b == a;
    } else {
      assert Init(a + b) == a + Init(b);
      UnionSplit(a, Init(b));
    }
  }

  lemma RunsReadBack(runs: seq<Range>)
    requires runs != [] && Canonical(runs) && Last(runs).last < CPUS
    ensures ReadMask(To(RunsText(runs))) == (Code(0), Union(runs))
  {
    hide ReadMask, ItemsText, RunsText, Union, Canonical, RunItems, Unsigned;
    RunsTextIsItemsText(runs);
    RunItemsInBounds(runs);
    RunItemsUnion(runs);
    var items := RunItems(runs);
    assert forall k :: 0 <= k < |items| ==> items[k] in items;
    LastInBounds(runs);
    Denotation(items);
  }

  lemma LastInBounds(runs: seq<Range>)
    requires runs != [] && Canonical(runs) && Last(runs).last < CPUS
    ensures |RunItems(runs)| <= CPUS
  {
    RunItemsInBounds(runs);
  }

  /** The round trip: for every 64-bit mask, parsing what was printed gives the
      mask back; the zero mask goes through a null pointer. */
  lemma RoundTrip(mask: Mask)
    ensures ReadMask(Printed(mask)) == (Code(0), mask)
  {
    if mask != {} {
      hide RunsText, Canonical, Parse, RunsBelow;
      RunsBelowExact(mask, CPUS);
      assert Below(mask, CPUS) == mask;
      RunsReadBack(Runs(mask));
    }
  }

  /** Storing a setting and reading it back canonicalises twice; any text the
      parser takes has the same canonical form after one pass as after two, and
      two texts share it exactly when they mean the same mask. */
  lemma CanonicalisingTwice(text: Pointer, other: Pointer)
    requires ReadMask(text).0 == Code(0) && ReadMask(other).0 == Code(0)
    ensures ReadMask(Printed(ReadMask(text).1)) == ReadMask(text)
    ensures Printed(ReadMask(Printed(ReadMask(text).1)).1) == Printed(ReadMask(text).1)
    ensures Printed(ReadMask(text).1) == Printed(ReadMask(other).1) <==> ReadMask(text) == ReadMask(other)
  {
    RoundTrip(ReadMask(text).1);
    RoundTrip(ReadMask(other).1);
  }

  // ----- the code itself

  /** One turn of the loop, as the code makes it: the item and the position
      after it, with `s` moved past the number, the hyphen and the upper end. */
  method ReadItem(s: CString, at: nat) returns (turn: Turn, next: nat)
    requires at < |s|
    ensures turn == NextItem(s[at..])
    ensures turn.Item? ==> at <= next <= |s| && turn.rest == s[next..]
  {
    hide Read, UpperEnd;
    var (number, used) := Read(s[at..]);
    next := at + used;
    assert s[at..][used..] == s[next..];
    if number >= CPUS {
      return Bad(2), next;
    }
    if next == |s| || s[next] == ',' {
      return Item(Range(number, number), s[next..]), next;
    }
    if s[next] != '-' {
      return Bad(3), next;
    }
    next := next + 1;
    assert s[next - 1..][1..] == s[next..];
    if next == |s| {
      return Bad(3), next;
    }
    turn, next := ReadUpperEnd(number, s, next);
  }

  method ReadUpperEnd(number: nat, s: CString, at: nat) returns (turn: Turn, next: nat)
    requires at < |s|
    ensures turn == UpperEnd(number, s[at..])
    ensures turn.Item? ==> at <= next <= |s| && turn.rest == s[next..]
  {
    hide Read;
    var (upper, used) := Read(s[at..]);
    next := at + used;
    assert s[at..][used..] == s[next..];
    if next == |s| || s[next] == ',' {
      return Item(Range(number, AsInt(upper)), s[next..]), next;
    }
    return Bad(3), next;
  }

  lemma ParseEnd(n: nat)
    ensures Parse("", n) == if n < CPUS then Items([UNSET]) else Overrun
  {}

  lemma ParseTurn(s: string, n: nat, before: seq<Range>)
    requires s != ""
    ensures var turn := NextItem(s);
            Parse(s, n).After(before) ==
            if turn == Bad(2) then Fail(2)
            else if n >= CPUS then Overrun
            else if turn.Bad? then Fail(turn.code)
            else if turn.rest == "" then Items(before + [turn.item])
            else Parse(turn.rest[1..], n + 1).After(before + [turn.item])
  {
    hide NextItem;
    var turn := NextItem(s);
    if turn.Item? && turn.rest != "" && n < CPUS {
      var p := Parse(turn.rest[1..], n + 1);
      if p.Items? {
        assert before + ([turn.item] + p.items) == before + [turn.item] + p.items;
      }
    }
  }

  /** The reading loop of `affinity_string_to_mask`. A use of slot 64 stops the
      model, as C says nothing about what follows it. */
  method FillSlots(s: CString) returns (parsed: Parsed)
    ensures parsed == Parse(s, 0)
  {
    hide NextItem, Parse;
    var slots := new Range[CPUS](_ => UNSET);
    var n, at := 0, 0;
    ghost var empty := true;   // nothing has been stored in slot n yet
    assert s[0..] == s;
    while at < |s|
      invariant at <= |s| && n <= CPUS && (at < |s| ==> empty)
      invariant forall k :: n < k < CPUS ==> slots[k] == UNSET
      invariant empty ==> (n < CPUS ==> slots[n] == UNSET) && Parse(s, 0) == Parse(s[at..], n).After(slots[..n])
      invariant !empty ==> n < CPUS && Parse(s, 0) == Items(slots[..n + 1])
    {
      ghost var before := slots[..n];
      var turn, next := ReadItem(s, at);
      ParseTurn(s[at..], n, before);
      if turn == Bad(2) {
        return Fail(2);
      }
      if n >= CPUS {
        return Overrun;
      }
      if turn.Bad? {
        return Fail(turn.code);
      }
      slots[n] := turn.item;
      assert slots[..n + 1] == before + [turn.item];
      at, empty := next, false;
      if at < |s| {
        assert s[at..][1..] == s[at + 1..];
        n, at, empty := n + 1, at + 1, true;
      }
    }
    if empty {
      assert s[at..] == "";
      ParseEnd(n);
    }
    parsed := if n < CPUS then Items(slots[..n + 1]) else Overrun;
  }

  predicate Fits(item: Range) {
    item.first <= item.last ==> 0 <= item.first && item.last < CPUS
  }

  /** The inner loop: `*mask |= 1LL << j` for every j of one slot. */
  method OrSlot(item: Range, before: set<int>) returns (fits: bool, mask: set<int>)
    ensures fits == Fits(item)
    ensures fits ==> mask == before + Span(item)
    ensures fits ==> forall c :: c in mask && c !in before ==> 0 <= c < CPUS
  {
    mask := before;
    var j := item.first;
    while j <= item.last
      invariant j <= item.last ==> item.first <= j
      invariant j > item.first ==> 0 <= item.first && item.first < j <= item.last + 1 && j <= CPUS
      invariant mask == before + Span(Range(item.first, j - 1))
    {
      if !(0 <= j < CPUS) {
        return false, mask;
      }
      mask := mask + {j};
      j := j + 1;
    }
    assert Span(item) == Span(Range(item.first, j - 1));
    fits := true;
  }

  /** The final loop, over the slots. */
  method OrBits(items: seq<Range>) returns (ret: Outcome, mask: Mask)
    ensures (ret, mask) == Shifted(Items(items))
  {
    hide Span;
    var bits: set<int> := {};
    for i := 0 to |items|
      invariant Shiftable(items[..i]) && bits == Union(items[..i])
      invariant forall c :: c in bits ==> 0 <= c < CPUS
    {
      assert Init(items[..i + 1]) == items[..i] && Last(items[..i + 1]) == items[i];
      var fits, more := OrSlot(items[i], bits);
      if !fits {
        assert !Shiftable(items);
        return Undefined, {};
      }
      bits := more;
    }
    assert items[..|items|] == items;
    assert bits == set cpu | 0 <= cpu < CPUS && cpu in Union(items);
    ret, mask := Code(0), bits;
  }

  /** `affinity_string_to_mask`. */
  method StringToMask(text: Pointer) returns (ret: Outcome, mask: Mask)
    ensures (ret, mask) == ReadMask(text)
  {
    if text.Null? {
      return Code(0), {};
    }
    var parsed := FillSlots(text.text);
    match parsed
    case Fail(code) => ret, mask := Code(code), {};
    case Overrun => ret, mask := Undefined, {};
    case Items(items) => ret, mask := OrBits(items);
  }
}
