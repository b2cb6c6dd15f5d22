/** Texts the affinity parser refuses, and when a printed mask has a hyphen. */
module AffinityTexts {
  import opened Strtoul
  import opened Affinity
  import opened AffinityParser

  // ----- refusals

  /** The parser after some items that it takes. */
  lemma {:induction false} ParseAfter(items: seq<Range>, rest: string, n: nat)
    requires items != [] && WellFormed(items) && n + |items| <= CPUS
    ensures Parse(ItemsText(items) + "," + rest, n) == Parse(rest, n + |items|).After(items)
  {
    hide NextItem, Parse, ItemText, ItemsText;
    var item := items[0];
    assert items == [item] + items[1..];
    if |items| == 1 {
      OneMore(item, rest, n);
      OnlyItem(item);
      assert items == [item];
    } else {
      var more := items[1..];
      ParseAfter(more, rest, n + 1);
      OneMore(item, ItemsText(more) + "," + rest, n);
      ItemsOf(items);
      assert ItemText(item) + "," + (ItemsText(more) + "," + rest) == ItemsText(items) + "," + rest;
      AfterTwice(Parse(rest, n + |items|), item, more);
    }
  }

  lemma OnlyItem(item: Range)
    ensures ItemsText([item]) == ItemText(item)
  {}

  lemma ItemsOf(items: seq<Range>)
    requires |items| > 1
    ensures ItemsText(items) == ItemText(items[0]) + "," + ItemsText(items[1..])
  {}

  lemma AfterTwice(p: Parsed, item: Range, more: seq<Range>)
    ensures p.After(more).After([item]) == p.After([item] + more)
  {
    if p.Items? {
      assert [item] + (more + p.items) == [item] + more + p.items;
    }
  }

  lemma OneMore(item: Range, rest: string, n: nat)
    requires WellFormed([item]) && n < CPUS
    ensures Parse(ItemText(item) + "," + rest, n) == Parse(rest, n + 1).After([item])
  {
    hide NextItem, ItemText;
    var tail := "," + rest;
    assert [item][0] == item;
    NextItemText(item, tail);
    assert ItemText(item) + "," + rest == ItemText(item) + tail;
    assert tail[1..] == rest;
  }

  lemma NumberTooBig(number: nat, tail: string)
    requires CPUS <= number < ULONG_RANGE && Delimited(tail)
    ensures Decimal(number) + tail != "" && NextItem(Decimal(number) + tail) == Bad(2)
  {
    hide Read, Decimal, UpperEnd;
    DecimalDigits(number);
    ReadDecimal(number, tail);
  }

  /** A number from 64 on is refused with code 2, at the front or after any items,
      whatever follows it. */
  lemma BigNumbersRefused(items: seq<Range>, number: nat, tail: CString)
    requires WellFormed(items) && |items| <= CPUS && CPUS <= number < ULONG_RANGE && Delimited(tail)
    ensures items == [] ==> ReadMask(To(Decimal(number) + tail)) == (Code(2), {})
    ensures items != [] ==> ReadMask(To(ItemsText(items) + "," + (Decimal(number) + tail))) == (Code(2), {})
  {
    hide Decimal, ItemsText, NextItem, Delimited;
    NumberTooBig(number, tail);
    if items != [] {
      ParseAfter(items, Decimal(number) + tail, 0);
    }
  }

  lemma WrongEnd(number: nat, tail: string)
    requires number < CPUS && Delimited(tail) && tail != ""
    requires tail[0] != ',' && (tail[0] != '-' || tail == "-")
    ensures Decimal(number) + tail != "" && NextItem(Decimal(number) + tail) == Bad(3)
  {
    hide Read, Decimal, UpperEnd;
    DecimalDigits(number);
    ReadDecimal(number, tail);
    assert (Decimal(number) + tail)[|Decimal(number)|..] == tail;
  }

  /** A number that is followed by anything but a comma or a hyphen, or by a
      hyphen at the end, is refused with code 3. */
  lemma WrongEndsRefused(items: seq<Range>, number: nat, tail: CString)
    requires WellFormed(items) && |items| < CPUS && number < CPUS && Delimited(tail) && tail != ""
    requires tail[0] != ',' && (tail[0] != '-' || tail == "-")
    ensures items == [] ==> ReadMask(To(Decimal(number) + tail)) == (Code(3), {})
    ensures items != [] ==> ReadMask(To(ItemsText(items) + "," + (Decimal(number) + tail))) == (Code(3), {})
  {
    hide Decimal, ItemsText, NextItem, Delimited;
    WrongEnd(number, tail);
    if items != [] {
      ParseAfter(items, Decimal(number) + tail, 0);
    }
  }

  // ----- hyphens

  lemma DigitsHaveNoHyphen(i: int)
    ensures '-' !in Unsigned(i) && ',' !in Unsigned(i)
  {
    DecimalDigits(i % ULONG_RANGE);
  }

  lemma RunHyphen(r: Range)
    ensures '-' in RunText(r) <==> r.last != r.first && r.last != r.first + 1
  {
    hide Unsigned;
    DigitsHaveNoHyphen(r.first);
    DigitsHaveNoHyphen(r.last);
    if r.last != r.first && r.last != r.first + 1 {
      assert RunText(r)[|Unsigned(r.first)|] == '-';
    }
  }

  lemma {:induction false} RunsHyphen(runs: seq<Range>)
    ensures '-' in RunsText(runs) <==>
            exists k :: 0 <= k < |runs| && runs[k].last != runs[k].first && runs[k].last != runs[k].first + 1
  {
    hide RunText;
    if |runs| == 1 {
      RunHyphen(runs[0]);
    } else if runs != [] {
      RunsHyphen(Init(runs));
      RunHyphen(Last(runs));
      assert forall k :: 0 <= k < |runs| - 1 ==> Init(runs)[k] == runs[k];
    }
  }

  /** The printed form of a mask has a hyphen exactly when three CPUs in a row
      are in it; two in a row take a comma. */
  lemma HyphenExactlyWhen(mask: Mask)
    requires mask != {}
    ensures '-' in MaskText(mask) <==> exists c :: c in mask && c + 1 in mask && c + 2 in mask
  {
    hide RunsText, RunText, RunsBelow;
    var runs := Runs(mask);
    RunsHyphen(runs);
    RunsAreMaximal(mask, runs);
    if exists k :: 0 <= k < |runs| && runs[k].last != runs[k].first && runs[k].last != runs[k].first + 1 {
      var k :| 0 <= k < |runs| && runs[k].last != runs[k].first && runs[k].last != runs[k].first + 1;
      CanonicalRuns(runs, k);
      InUnion(runs, k, runs[k].first);
      InUnion(runs, k, runs[k].first + 1);
      InUnion(runs, k, runs[k].first + 2);
    }
    if exists c :: c in mask && c + 1 in mask && c + 2 in mask {
      var c :| c in mask && c + 1 in mask && c + 2 in mask;
      var k := RunWith(runs, c);
    }
  }

  lemma {:induction false} InUnion(runs: seq<Range>, k: nat, c: int)
    requires k < |runs| && runs[k].first <= c <= runs[k].last
    ensures c in Union(runs)
  {
    if k < |runs| - 1 {
      InUnion(Init(runs), k, c);
    }
  }

  /** Three CPUs in a row are in one run. */
  lemma {:induction false} RunWith(runs: seq<Range>, c: int) returns (k: nat)
    requires Canonical(runs) && c in Union(runs) && c + 1 in Union(runs) && c + 2 in Union(runs)
    ensures k < |runs| && runs[k].first <= c && c + 2 <= runs[k].last
  {
    k := |runs| - 1;
    LastRun(runs, c);
    LastRun(runs, c + 1);
    LastRun(runs, c + 2);
    if c + 2 < Last(runs).first {
      k := RunWith(Init(runs), c);
    }
  }
}
