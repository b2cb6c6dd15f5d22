/** The two dependency setters and getters over the list the service manager
    keeps: `native_set_dependongroup`, `native_set_dependonservice`,
    `get_service_dependencies`. */
module ServiceConfig {
  import opened Options
  import opened DoubleNull
  import opened Unformat
  import opened Format
  import opened Dependencies
  import opened Setters

  /** Strings one after the other, each with its NUL. */
  function Flat(strings: seq<string>): string {
    if strings == [] then "" else Flat(strings[..|strings| - 1]) + strings[|strings| - 1] + "\0"
  }

  lemma {:induction false} FlatFront(strings: seq<string>)
    requires strings != []
    ensures Flat(strings) == strings[0] + "\0" + Flat(strings[1..])
  {
    var init, last := strings[..|strings| - 1], strings[|strings| - 1];
    if |strings| == 1 {
      assert init == [] && strings[1..] == [];
      assert "" + strings[0] == strings[0];
    } else {
      FlatFront(init);
      assert init[1..] == strings[1..][..|strings| - 2] && init[0] == strings[0];
      assert strings[0] + "\0" + Flat(init[1..]) + last + "\0" == strings[0] + "\0" + (Flat(init[1..]) + last + "\0");
    }
  }

  lemma {:induction false} BlockIsFlat(strings: seq<string>)
    ensures Block(strings) == Flat(strings) + "\0"
  {
    if strings != [] {
      FlatFront(strings);
      BlockIsFlat(strings[1..]);
    }
  }

  /** `memmove(dst + at, src, ...)`. */
  method MoveTo(dst: array<char>, at: nat, src: string)
    requires at + |src| <= dst.Length
    modifies dst
    ensures dst[..at + |src|] == old(dst[..at]) + src
    ensures forall k :: at + |src| <= k < dst.Length ==> dst[k] == old(dst[k])
  {
    for k := 0 to |src|
      invariant dst[..at + k] == old(dst[..at]) + src[..k]
      invariant forall k :: at + |src| <= k < dst.Length ==> dst[k] == old(dst[k])
    {
      dst[at + k] := src[k];
      assert dst[..at + k + 1] == dst[..at + k] + [src[k]];
    }
    assert src[..|src|] == src;
  }

  /** Where the scan over a block has got to: s cells in, k strings behind it. */
  ghost predicate At(block: string, entries: seq<string>, s: nat, k: nat)
  {
    && k <= |entries| && s <= |block|
    && Block(entries[k..]) <= block[s..]
    && (forall j :: 0 <= j < |entries| ==> Storable(entries[j]))
  }

  /** The scan at a string: its length, and the step over it. */
  lemma Next(block: string, entries: seq<string>, s: nat, k: nat)
    requires At(block, entries, s, k)
    ensures s < |block|
    ensures block[s] == '\0' <==> k == |entries|
    ensures k < |entries| ==>
              var n := StringLength(block[s..]);
              && s + n + 1 <= |block| && n > 0 && block[s] == entries[k][0]
              && block[s..s + n + 1] == entries[k] + "\0"
              && At(block, entries, s + n + 1, k + 1)
  {
    hide StringLength;
    var rest := block[s..];
    if k < |entries| {
      var e := entries[k];
      var tail := Block(entries[k + 1..]);
      assert entries[k..][1..] == entries[k + 1..];
      assert Block(entries[k..]) == e + "\0" + tail;
      var more := rest[|e|..];
      assert rest == e + more;
      assert rest[|e|] == '\0';
      LengthOf(e, more);
      assert rest[0] == e[0];
      assert block[s + |e| + 1..] == rest[|e| + 1..];
      assert tail <= rest[|e| + 1..];
    } else {
      assert entries[k..] == [];
    }
  }

  lemma {:induction false} StringsStorable(b: string)
    ensures forall k :: 0 <= k < |Strings(b)| ==> Storable(Strings(b)[k])
    decreases |b|
  {
    var n := StringLength(b);
    if 0 < n < |b| {
      StringsStorable(b[n + 1..]);
    }
  }

  lemma FilterSnoc(kind: Kind, entries: seq<string>, k: nat)
    requires k < |entries|
    ensures Filter(kind, entries[..k + 1]) ==
            Filter(kind, entries[..k]) + if Of(kind, entries[k]) then [entries[k]] else []
  {
    assert entries[..k + 1] == entries[..k] + [entries[k]];
    FilterSplit(kind, entries[..k], [entries[k]]);
    assert [entries[k]][1..] == [];
  }

  lemma FlatSnoc(entries: seq<string>, entry: string)
    ensures Flat(entries + [entry]) == Flat(entries) + (entry + "\0")
  {
    assert (entries + [entry])[..|entries|] == entries;
  }

  /** A move into the zeroed part of a buffer. */
  method AppendZeroed(dst: array<char>, at: nat, src: string)
    requires at + |src| <= dst.Length
    requires forall k :: at <= k < dst.Length ==> dst[k] == '\0'
    modifies dst
    ensures dst[..at + |src|] == old(dst[..at]) + src
    ensures forall k :: at + |src| <= k < dst.Length ==> dst[k] == '\0'
  {
    MoveTo(dst, at, src);
  }

  /** The body of that loop: one string, copied if it is of the kind. */
  method CopyEntry(kind: Kind, lp: string, ghost entries: seq<string>, buffer: array<char>, s: nat, ghost k: nat,
                   at: nat)
    returns (len: nat, bufsize: nat)
    requires At(lp, entries, s, k) && s < |lp| && lp[s] != '\0' && k < |entries|
    requires at <= s && buffer.Length >= |lp| + 1 && buffer[..at] == Flat(Filter(kind, entries[..k]))
    requires forall j :: at <= j < buffer.Length ==> buffer[j] == '\0'
    modifies buffer
    ensures len > 0 && At(lp, entries, s + len, k + 1) && s + len < |lp|
    ensures bufsize <= s + len && buffer[..bufsize] == Flat(Filter(kind, entries[..k + 1]))
    ensures forall j :: bufsize <= j < buffer.Length ==> buffer[j] == '\0'
  {
    hide Block, Filter, Flat, StringLength;
    Next(lp, entries, s, k);
    FilterSnoc(kind, entries, k);
    len := StringLength(lp[s..]) + 1;
    bufsize := at;
    if (lp[s] == GROUP_IDENTIFIER) == kind.Groups? {
      FlatSnoc(Filter(kind, entries[..k]), entries[k]);
      AppendZeroed(buffer, bufsize, lp[s..s + len]);
      bufsize := bufsize + len;
    } else {
      assert Filter(kind, entries[..k]) + [] == Filter(kind, entries[..k]);
    }
    Next(lp, entries, s + len, k + 1);
  }

  /** The filtering loop of `get_service_dependencies`: copies the strings of
      one kind from the block lp into a zeroed buffer that is large enough. */
  method CopyKind(kind: Kind, lp: string, ghost entries: seq<string>, buffer: array<char>) returns (bufsize: nat)
    requires At(lp, entries, 0, 0) && buffer.Length >= |lp| + 1
    requires forall k :: 0 <= k < buffer.Length ==> buffer[k] == '\0'
    modifies buffer
    ensures 0 < bufsize < buffer.Length && buffer[..bufsize] == Block(Filter(kind, entries))
    ensures buffer[bufsize] == '\0'
  {
    hide Block, Filter, Flat;
    var s := 0;
    ghost var k := 0;
    bufsize := 0;
    Next(lp, entries, s, k);
    FilterNothing(kind);
    assert entries[..0] == [];
    while lp[s] != '\0'
      invariant At(lp, entries, s, k) && s < |lp| && (lp[s] == '\0' <==> k == |entries|)
      invariant bufsize <= s && buffer[..bufsize] == Flat(Filter(kind, entries[..k]))
      invariant forall j :: bufsize <= j < buffer.Length ==> buffer[j] == '\0'
      decreases |lp| - s
    {
      var len;
      len, bufsize := CopyEntry(kind, lp, entries, buffer, s, k, bufsize);
      s, k := s + len, k + 1;
      Next(lp, entries, s, k);
    }
    assert entries[..k] == entries;
    BlockIsFlat(Filter(kind, entries));
    bufsize := bufsize + 1;
    assert buffer[..bufsize] == buffer[..bufsize - 1] + "\0";
  }

  lemma FilterNothing(kind: Kind)
    ensures Filter(kind, []) == [] && Flat([]) == ""
  {}

  lemma PrefixedSnoc(entries: seq<string>, k: nat)
    requires k < |entries|
    ensures Prefixed(entries[..k + 1]) == Prefixed(entries[..k]) + [Identified(entries[k])]
  {
    assert entries[..k + 1] == entries[..k] + [entries[k]];
    PrefixedSplit(entries[..k], [entries[k]]);
    assert [entries[k]][1..] == [];
  }

  lemma {:induction false} PrefixedSplit(a: seq<string>, b: seq<string>)
    ensures Prefixed(a + b) == Prefixed(a) + Prefixed(b)
  {
    if a == [] {
      assert a + b == b;
    } else {
      assert (a + b)[1..] == a[1..] + b;
      PrefixedSplit(a[1..], b);
    }
  }

  lemma PrefixedNothing()
    ensures Prefixed([]) == [] && Flat([]) == ""
  {}

  lemma FlatPrefix(entries: seq<string>, k: nat)
    requires k <= |entries|
    ensures |Flat(Prefixed(entries[..k]))| <= |Flat(Prefixed(entries))|
    decreases |entries| - k
  {
    if k < |entries| {
      PrefixedSnoc(entries, k);
      FlatSnoc(Prefixed(entries[..k]), Identified(entries[k]));
      FlatPrefix(entries, k + 1);
    } else {
      assert entries[..k] == entries;
    }
  }

  /** The counting loop of `native_set_dependongroup`: how many entries lack the
      identifier and how many cells the entries take. */
  method CountMissing(unformatted: string, ghost entries: seq<string>) returns (missing: nat, canonlen: nat)
    requires At(unformatted, entries, 0, 0)
    ensures missing == 0 ==> Prefixed(entries) == entries
    ensures canonlen + missing == |Flat(Prefixed(entries))|
  {
    hide Block, Flat, Prefixed;
    missing, canonlen := 0, 0;
    var s := 0;
    ghost var k := 0;
    Next(unformatted, entries, s, k);
    PrefixedNothing();
    assert entries[..0] == [];
    while unformatted[s] != '\0'
      invariant At(unformatted, entries, s, k) && s < |unformatted|
      invariant unformatted[s] == '\0' <==> k == |entries|
      invariant missing == 0 ==> Prefixed(entries[..k]) == entries[..k]
      invariant canonlen + missing == |Flat(Prefixed(entries[..k]))|
      decreases |unformatted| - s
    {
      Next(unformatted, entries, s, k);
      PrefixedSnoc(entries, k);
      FlatSnoc(Prefixed(entries[..k]), Identified(entries[k]));
      if unformatted[s] != GROUP_IDENTIFIER {
        missing := missing + 1;
      }
      var len := StringLength(unformatted[s..]);
      canonlen := canonlen + len + 1;
      assert |entries[k]| == len by {
        assert |entries[k] + "\0"| == len + 1;
      }
      s, k := s + len + 1, k + 1;
      Next(unformatted, entries, s, k);
    }
    assert entries[..k] == entries;
  }

  /** One string with its NUL, behind an identifier if it lacks one. */
  method CopyIdentified(canon: array<char>, at: nat, src: string, ghost entry: string) returns (i: nat)
    requires entry != "" && src == entry + "\0"
    requires at + |Identified(entry)| + 1 < canon.Length
    modifies canon
    ensures i == at + |Identified(entry)| + 1
    ensures canon[..i] == old(canon[..at]) + (Identified(entry) + "\0")
    ensures canon[canon.Length - 1] == old(canon[canon.Length - 1])
  {
    hide Identified;
    ghost var before := canon[..at];
    IdentifiedText(before, entry);
    i := at;
    if src[0] != GROUP_IDENTIFIER {
      canon[i] := GROUP_IDENTIFIER;
      i := i + 1;
    }
    assert canon[..i] == before + Sign(entry);
    MoveTo(canon, i, src);
    i := i + |src|;
  }

  /** What goes in front of an entry. */
  function Sign(entry: string): string
    requires entry != ""
  {
    if entry[0] == GROUP_IDENTIFIER then "" else [GROUP_IDENTIFIER]
  }

  lemma IdentifiedText(before: string, entry: string)
    requires entry != ""
    ensures Identified(entry) == Sign(entry) + entry
    ensures before + Sign(entry) + (entry + "\0") == before + (Identified(entry) + "\0")
  {
    assert "" + entry == entry;
    assert before + Sign(entry) + (entry + "\0") == before + (Sign(entry) + entry + "\0");
  }

  /** The second loop: every string copied, behind an identifier if need be. */
  method AddIdentifiers(unformatted: string, canonlen: nat, ghost entries: seq<string>) returns (canon: array<char>)
    requires At(unformatted, entries, 0, 0) && canonlen == |Flat(Prefixed(entries))| + 1
    ensures fresh(canon) && canon[..] == Block(Prefixed(entries))
  {
    hide Block, Flat, Prefixed;
    canon := new char[canonlen](_ => '\0');
    var s: nat, i: nat := 0, 0;
    ghost var k := 0;
    Next(unformatted, entries, s, k);
    PrefixedNothing();
    assert entries[..0] == [];
    while unformatted[s] != '\0'
      invariant At(unformatted, entries, s, k) && s < |unformatted|
      invariant unformatted[s] == '\0' <==> k == |entries|
      invariant i < canon.Length && canon[canonlen - 1] == '\0'
      invariant canon[..i] == Flat(Prefixed(entries[..k]))
      decreases |unformatted| - s
    {
      Next(unformatted, entries, s, k);
      PrefixedSnoc(entries, k);
      FlatSnoc(Prefixed(entries[..k]), Identified(entries[k]));
      FlatPrefix(entries, k + 1);
      var len := StringLength(unformatted[s..]);
      i := CopyIdentified(canon, i, unformatted[s..s + len + 1], entries[k]);
      assert |entries[k] + "\0"| == len + 1;
      s, k := s + len + 1, k + 1;
      Next(unformatted, entries, s, k);
    }
    assert entries[..k] == entries;
    BlockIsFlat(Prefixed(entries));
    assert canon[..] == canon[..i] + "\0";
  }

  /** `canon`: the entries with their identifiers, or the block as it came. */
  method Canonicalise(unformatted: array<char>) returns (canon: array<char>)
    requires Terminated(unformatted[..])
    ensures Terminated(canon[..]) && Strings(canon[..]) == Prefixed(Strings(unformatted[..]))
  {
    hide Strings, Block, Prefixed;
    ghost var entries := Strings(unformatted[..]);
    TerminatedBlock(unformatted[..]);
    assert entries[0..] == entries && unformatted[..][0..] == unformatted[..];
    var missing, canonlen := CountMissing(unformatted[..], entries);
    if missing == 0 {
      return unformatted;
    }
    canon := AddIdentifiers(unformatted[..], canonlen + missing + 1, entries);
    PrefixedStorable(entries);
    StringsOfBlock(Prefixed(entries), "");
    assert canon[..] + "" == canon[..];
    BlockTerminated(Prefixed(entries));
  }

  lemma {:induction false} PrefixedStorable(entries: seq<string>)
    requires forall k :: 0 <= k < |entries| ==> Storable(entries[k])
    ensures forall k :: 0 <= k < |Prefixed(entries)| ==> Storable(Prefixed(entries)[k])
  {
    if entries != [] {
      PrefixedStorable(entries[1..]);
    }
  }

  lemma {:induction false} BlockTerminated(entries: seq<string>)
    requires forall k :: 0 <= k < |entries| ==> Storable(entries[k])
    ensures Terminated(Block(entries))
  {
    if entries != [] {
      BlockTerminated(entries[1..]);
      if |entries| == 1 {
        assert Block(entries) == entries[0] + "\0" + "\0";
      }
    }
  }

  /** Puts a new list behind the block of the other kind: the copy starts on the
      last NUL of that block, so no entry is lost and no two are joined. A block
      of up to two cells holds no entry. */
  method Merge(buffer: array?<char>, buflen: nat, ghost others: seq<string>, added: array<char>)
    returns (merged: array<char>)
    requires buffer == null ==> buflen == 0 && others == []
    requires buffer != null ==> buflen <= buffer.Length && buffer[..buflen] == Block(others)
    requires forall k :: 0 <= k < |others| ==> Storable(others[k])
    requires Terminated(added[..])
    ensures Strings(merged[..]) == others + Strings(added[..])
    ensures At(merged[..], others + Strings(added[..]), 0, 0)
  {
    hide Strings, Storable, Block, Flat, Terminated;
    TerminatedBlock(added[..]);
    if buflen > 2 {
      merged := new char[added.Length + buflen];
      MoveTo(merged, 0, buffer[..buflen]);
      assert merged[..buflen] == buffer[..buflen];
      BlockIsFlat(others);
      assert merged[..buflen - 1] == Flat(others);
      MoveTo(merged, buflen - 1, added[..]);
      ghost var junk := merged[added.Length + buflen - 1..];
      assert merged[..] == Flat(others) + (added[..] + junk);
      TerminatedAndMore(added[..], junk);
      StringsOfFlat(others, added[..] + junk);
      FlatAt(others, Strings(added[..]), added[..], junk);
    } else {
      ShortBlock(others);
      assert [] + Strings(added[..]) == Strings(added[..]);
      merged := added;
      assert "" + (added[..] + "") == added[..];
      EmptyFlat();
      FlatAt([], Strings(added[..]), added[..], "");
    }
  }

  lemma EmptyFlat()
    ensures Flat([]) == ""
  {}

  lemma {:induction false} FlatBlock(a: seq<string>, b: seq<string>)
    ensures Block(a + b) == Flat(a) + Block(b)
  {
    hide Flat;
    if a == [] {
      EmptyFlat();
      assert a + b == b && "" + Block(b) == Block(b);
    } else {
      FlatFront(a);
      FlatBlock(a[1..], b);
      assert (a + b)[1..] == a[1..] + b;
      assert a[0] + "\0" + (Flat(a[1..]) + Block(b)) == a[0] + "\0" + Flat(a[1..]) + Block(b);
    }
  }

  /** Strings in front of a block, and anything behind it. */
  lemma FlatAt(others: seq<string>, entries: seq<string>, block: string, junk: string)
    requires Block(entries) <= block
    requires forall k :: 0 <= k < |others| ==> Storable(others[k])
    requires forall k :: 0 <= k < |entries| ==> Storable(entries[k])
    ensures At(Flat(others) + (block + junk), others + entries, 0, 0)
  {
    hide Block, Flat, Storable;
    var list := others + entries;
    FlatBlock(others, entries);
    InFront(Flat(others), Block(entries), block, junk);
    StartAt(Flat(others) + (block + junk), list);
  }

  lemma InFront(flat: string, b: string, block: string, junk: string)
    requires b <= block
    ensures flat + b <= flat + (block + junk)
  {
    assert block == b + block[|b|..];
  }

  lemma StartAt(all: string, list: seq<string>)
    requires Block(list) <= all && forall j :: 0 <= j < |list| ==> Storable(list[j])
    ensures At(all, list, 0, 0)
  {
    hide Block, Storable;
    assert list[0..] == list && all[0..] == all;
  }

  lemma ShortBlock(others: seq<string>)
    requires forall k :: 0 <= k < |others| ==> Storable(others[k])
    ensures others != [] ==> |Block(others)| > 2
  {
    if others != [] {
      assert |others[0]| > 0 && |Block(others[1..])| > 0;
    }
  }

  lemma StringsStep(s: string, tail: string)
    requires Storable(s)
    ensures Strings(s + "\0" + tail) == [s] + Strings(tail)
  {
    var all := s + "\0" + tail;
    assert all == s + ("\0" + tail);
    LengthOf(s, "\0" + tail);
    assert all[..|s|] == s && all[|s| + 1..] == tail;
  }

  lemma {:induction false} StringsOfFlat(strings: seq<string>, b: string)
    requires forall k :: 0 <= k < |strings| ==> Storable(strings[k])
    ensures Strings(Flat(strings) + b) == strings + Strings(b)
  {
    hide Strings, Flat, Storable;
    if strings == [] {
      PrefixedNothing();
      assert "" + b == b && [] + Strings(b) == Strings(b);
    } else {
      FlatFront(strings);
      StringsOfFlat(strings[1..], b);
      StringsStep(strings[0], Flat(strings[1..]) + b);
      assert Flat(strings) + b == strings[0] + "\0" + (Flat(strings[1..]) + b);
      assert [strings[0]] + (strings[1..] + Strings(b)) == strings + Strings(b);
    }
  }

  // ----- resolving names

  lemma NoStrings(names: Names)
    ensures Resolved(names, []) == Some([]) && Strings("\0") == []
  {}

  /** The counting loop of `set_service_dependencies`. */
  method CountEntries(block: string, ghost entries: seq<string>) returns (n: nat)
    requires At(block, entries, 0, 0)
    ensures n == |entries|
  {
    n := 0;
    var s := 0;
    Next(block, entries, s, n);
    while block[s] != '\0'
      invariant At(block, entries, s, n) && s < |block| && (block[s] == '\0' <==> n == |entries|)
      decreases |block| - s
    {
      Next(block, entries, s, n);
      s := s + StringLength(block[s..]) + 1;
      n := n + 1;
      Next(block, entries, s, n);
    }
  }

  lemma ResolvedSnoc(names: Names, entries: seq<string>, k: nat)
    requires k < |entries|
    ensures Resolved(names, entries[..k + 1]) ==
            var before, name := Resolved(names, entries[..k]), names(entries[k]);
            if before.Some? && name.Some? then Some(before.value + [name.value]) else None
  {
    assert entries[..k + 1][..k] == entries[..k];
  }

  /** The second loop: canonical names one after the other, in a zeroed buffer
      with room for the longest names and two NULs. */
  method ResolveAll(block: string, names: Names, n: nat, ghost entries: seq<string>)
      returns (found: bool, resolved: array<char>)
    requires At(block, entries, 0, 0) && n == |entries| && Sound(names)
    ensures fresh(resolved) && (found <==> Resolved(names, entries).Some?)
    ensures found ==> Strings(resolved[..]) == Resolved(names, entries).value
  {
    hide Block, Flat, Strings, Resolved, StringLength, At, Sound;
    resolved := new char[n * SERVICE_NAME_LENGTH + 2](_ => '\0');
    var s, i: nat := 0, 0;
    ghost var k := 0;
    NoStrings(names);
    EmptyFlat();
    assert entries[..0] == [];
    Next(block, entries, s, k);
    while block[s] != '\0'
      invariant At(block, entries, s, k) && s < |block| && k <= |entries| && (block[s] == '\0' <==> k == |entries|)
      invariant i <= k * SERVICE_NAME_LENGTH && (forall j :: i <= j < resolved.Length ==> resolved[j] == '\0')
      invariant Resolved(names, entries[..k]).Some?
      invariant resolved[..i] == Flat(Resolved(names, entries[..k]).value)
      decreases |block| - s
    {
      Next(block, entries, s, k);
      ResolvedSnoc(names, entries, k);
      var len := StringLength(block[s..]);
      var name := names(block[s..s + len]);
      EntryAt(block, entries, s, k);
      if name.None? {
        NoneAfter(names, entries, k + 1);
        return false, resolved;
      }
      SoundName(names, entries[k]);
      FlatSnoc(Resolved(names, entries[..k]).value, name.value);
      assert |name.value + "\0"| <= SERVICE_NAME_LENGTH;
      AppendZeroed(resolved, i, name.value + "\0");
      i := i + |name.value + "\0"|;
      s, k := s + len + 1, k + 1;
      Next(block, entries, s, k);
    }
    assert entries[..k] == entries;
    found := true;
    ResolvedBlock(resolved[..], i, Resolved(names, entries).value, names, entries);
  }

  lemma EntryAt(block: string, entries: seq<string>, s: nat, k: nat)
    requires At(block, entries, s, k) && k < |entries|
    ensures var n := StringLength(block[s..]);
            s + n + 1 <= |block| && block[s..s + n] == entries[k]
  {
    hide StringLength;
    Next(block, entries, s, k);
    var n := StringLength(block[s..]);
    assert block[s..s + n + 1][..n] == block[s..s + n];
    assert (entries[k] + "\0")[..|entries[k]|] == entries[k];
    assert |entries[k] + "\0"| == n + 1;
  }

  lemma SoundName(names: Names, entry: string)
    requires Sound(names) && names(entry).Some?
    ensures Storable(names(entry).value) && |names(entry).value| < SERVICE_NAME_LENGTH
  {}

  lemma {:induction false} NoneAfter(names: Names, entries: seq<string>, k: nat)
    requires k <= |entries| && Resolved(names, entries[..k]).None?
    ensures Resolved(names, entries).None?
    decreases |entries| - k
  {
    if k < |entries| {
      ResolvedSnoc(names, entries, k);
      NoneAfter(names, entries, k + 1);
    } else {
      assert entries[..k] == entries;
    }
  }

  lemma ResolvedBlock(cells: string, i: nat, strings: seq<string>, names: Names, entries: seq<string>)
    requires i < |cells| && cells[..i] == Flat(strings) && cells[i] == '\0'
    requires Sound(names) && Resolved(names, entries) == Some(strings)
    ensures Strings(cells) == strings
  {
    hide Strings, Block, Flat, Resolved;
    ResolvedExactly(names, entries);
    forall k | 0 <= k < |strings| ensures Storable(strings[k]) {
      SoundName(names, entries[k]);
    }
    BlockIsFlat(strings);
    assert cells == cells[..i] + [cells[i]] + cells[i + 1..];
    assert cells == Block(strings) + cells[i + 1..];
    StringsOfBlock(strings, cells[i + 1..]);
  }

  // ----- the service manager and the setters

  /** A text with its terminator and the spare cell behind it, as the setters
      hand it to the converter. */
  method TextBuffer(text: string) returns (value: array<char>)
    ensures fresh(value) && value.Length == |text| + 2 && value[..|text| + 1] == text + "\0"
  {
    value := new char[|text| + 2](_ => '\0');
    MoveTo(value, 0, text);
    assert value[..|text| + 1] == value[..|text|] + [value[|text|]];
    assert value[|text|..][0] == '\0';
  }

  /** The service manager's record of one service. */
  class Service {
    /** The entries of lpDependencies. */
    var dependencies: seq<string>

    constructor ()
      ensures Valid() && dependencies == []
    {
      dependencies := [];
    }

    ghost predicate Valid()
      reads this
    {
      forall k :: 0 <= k < |dependencies| ==> Storable(dependencies[k])
    }

    /** `ChangeServiceConfig`: keeps the strings of the block it is given, or
        everything as it is when given a null pointer. */
    method ChangeConfig(block: array?<char>)
      requires Valid()
      modifies this
      ensures Valid()
      ensures dependencies == if block == null then old(dependencies) else Strings(block[..])
    {
      if block != null {
        StringsStorable(block[..]);
        dependencies := Strings(block[..]);
      }
    }

    /** `set_service_dependencies`: every entry replaced by its canonical name,
        or nothing changed when one is not known. */
    method SetServiceDependencies(buffer: array<char>, names: Names, ghost entries: seq<string>) returns (ret: int)
      requires Valid() && Sound(names) && At(buffer[..], entries, 0, 0)
      modifies this
      ensures Valid()
      ensures match Resolved(names, entries)
              case None => ret == 5 && dependencies == old(dependencies)
              case Some(resolved) => ret == 0 && dependencies == resolved
    {
      hide Block, Strings, Resolved, Sound;
      var block := buffer[..];
      Next(block, entries, 0, 0);
      if buffer[0] == '\0' {
        NoStrings(names);
        var empty := new char[1](_ => '\0');
        assert empty[..] == "\0";
        ChangeConfig(empty);
        return 0;
      }
      var n := CountEntries(block, entries);
      var found, resolved := ResolveAll(block, names, n, entries);
      if !found {
        return 5;
      }
      ChangeConfig(resolved);
      ret := 0;
    }

    /** `get_service_dependencies`: the entries of one kind as a block, or a null
        pointer when there are no entries of either kind. The cell behind the
        block is a NUL. */
    method GetDependencies(kind: Kind) returns (buffer: array?<char>, bufsize: nat)
      requires Valid()
      ensures dependencies == [] ==> buffer == null && bufsize == 0
      ensures dependencies != [] ==> buffer != null && fresh(buffer) && 0 < bufsize < buffer.Length
      ensures dependencies != [] ==> buffer[..bufsize] == Block(Filter(kind, dependencies)) && buffer[bufsize] == '\0'
    {
      if dependencies == [] {
        return null, 0;
      }
      var lp := Block(dependencies);
      assert dependencies[0..] == dependencies && lp[0..] == lp;
      bufsize := MeasureBlock(lp, dependencies);
      buffer := new char[bufsize + 2](_ => '\0');
      bufsize := CopyKind(kind, lp, dependencies, buffer);
    }

    /** `native_set_dependongroup`. */
    method SetDependOnGroup(text: string, names: Names) returns (ret: int)
      requires Valid() && Normalised(text) && Free(text, '\0') && |text| < ULONG - 2 && Sound(names)
      modifies this
      ensures Valid() && dependencies == GroupsAfter(names, old(dependencies), text)
      ensures ret == if text == "" then 0
                     else if Resolved(names, WithGroups(old(dependencies), text)).Some? then 1 else -1
    {
      hide Filter, Prefixed, Strings, Unformatted, Block, Resolved, Sound, At;
      FilterStorable(Services, dependencies);
      FilterOfNothing(Services);
      var buffer, buflen := GetDependencies(Services);
      if text == "" {
        Restore(buffer, buflen, Services);
        return 0;
      }
      var value := TextBuffer(text);
      TextWithNul(text);
      var unformatted, newlen := UnformatDoubleNull(value, |text| + 1);
      var canon := Canonicalise(unformatted);
      var merged := Merge(buffer, buflen, Filter(Services, dependencies), canon);
      var failed := SetServiceDependencies(merged, names, Filter(Services, dependencies) + Strings(canon[..]));
      ret := if failed != 0 then -1 else 1;
    }

    /** `native_set_dependonservice`. */
    method SetDependOnService(text: string, names: Names) returns (ret: int)
      requires Valid() && Normalised(text) && Free(text, '\0') && |text| < ULONG - 2 && Sound(names)
      modifies this
      ensures Valid() && dependencies == ServicesAfter(names, old(dependencies), text)
      ensures ret == if text == "" then 0
                     else if Resolved(names, WithServices(old(dependencies), text)).Some? then 1 else -1
    {
      hide Filter, Strings, Unformatted, Block, Resolved, Sound, At;
      FilterStorable(Groups, dependencies);
      FilterOfNothing(Groups);
      var buffer, buflen := GetDependencies(Groups);
      if text == "" {
        Restore(buffer, buflen, Groups);
        return 0;
      }
      var value := TextBuffer(text);
      TextWithNul(text);
      var unformatted, newlen := UnformatDoubleNull(value, |text| + 1);
      var merged := Merge(buffer, buflen, Filter(Groups, dependencies), unformatted);
      var failed := SetServiceDependencies(merged, names, Filter(Groups, dependencies) + Strings(unformatted[..]));
      ret := if failed != 0 then -1 else 1;
    }

    /** Setting nothing: what is left is the entries of the other kind. */
    method Restore(buffer: array?<char>, buflen: nat, kind: Kind)
      requires Valid()
      requires dependencies == [] <==> buffer == null
      requires buffer != null ==> buflen <= buffer.Length && buffer[..buflen] == Block(Filter(kind, dependencies))
      modifies this
      ensures Valid() && dependencies == Filter(kind, old(dependencies))
    {
      FilterStorable(kind, dependencies);
      FilterOfNothing(kind);
      if buffer != null {
        assert buffer[..] == Block(Filter(kind, dependencies)) + buffer[buflen..];
        StringsOfBlock(Filter(kind, dependencies), buffer[buflen..]);
      }
      ChangeConfig(buffer);
    }

    /** `native_get_dependongroup` and `native_get_dependonservice`: the entries
        of one kind, each on a line of its own. */
    method GetDependOn(kind: Kind) returns (text: string)
      requires Valid()
      ensures text == Join(Filter(kind, dependencies))
    {
      hide Filter, Formatted, Block;
      FilterStorable(kind, dependencies);
      FilterOfNothing(kind);
      var buffer, buflen := GetDependencies(kind);
      if buflen == 0 {
        return "";
      }
      var formatted, newlen := FormatDoubleNull(buffer, buflen);
      TextOfBlock(Filter(kind, dependencies));
      text := formatted[..StringLength(formatted[..])];
    }
  }

  lemma {:induction false} FilterStorable(kind: Kind, entries: seq<string>)
    requires forall k :: 0 <= k < |entries| ==> Storable(entries[k])
    ensures forall k :: 0 <= k < |Filter(kind, entries)| ==> Storable(Filter(kind, entries)[k])
  {
    if entries != [] {
      FilterStorable(kind, entries[1..]);
    }
  }

  lemma FilterOfNothing(kind: Kind)
    ensures Filter(kind, []) == []
  {}

  lemma TextWithNul(text: string)
    requires Normalised(text)
    ensures Normalised(text + "\0") && Terminated(Unformatted(text + "\0"))
  {
    var u := text + "\0";
    assert forall k :: 0 <= k < |u| && u[k] == '\r' ==> k < |text| && text[k] == '\r' && text[k + 1] == u[k + 1];
    StripAndCopy(u);
  }

  /** What reading a formatted block up to its first NUL gives. */
  lemma TextOfBlock(entries: seq<string>)
    requires forall k :: 0 <= k < |entries| ==> Storable(entries[k])
    ensures var f := Formatted(Block(entries), '\0');
            f[..StringLength(f)] == Join(entries)
  {
    if entries == [] {
      EmptyFormats();
    } else {
      FormattedText(entries);
    }
  }

  /** The measuring loop of `get_service_dependencies`. */
  method MeasureBlock(lp: string, ghost entries: seq<string>) returns (size: nat)
    requires At(lp, entries, 0, 0) && lp == Block(entries)
    ensures size == |lp| - 1
  {
    hide Block;
    size := 0;
    ghost var k := 0;
    Next(lp, entries, size, k);
    while lp[size] != '\0'
      invariant At(lp, entries, size, k) && size < |lp|
      invariant lp[size] == '\0' <==> k == |entries|
      invariant |lp| == size + |Block(entries[k..])|
      decreases |lp| - size
    {
      Next(lp, entries, size, k);
      BlockTail(entries, k);
      assert |entries[k] + "\0"| == StringLength(lp[size..]) + 1;
      size := size + StringLength(lp[size..]) + 1;
      k := k + 1;
      Next(lp, entries, size, k);
    }
    assert entries[k..] == [];
    EmptyBlock();
  }

  lemma BlockTail(entries: seq<string>, k: nat)
    requires k < |entries|
    ensures |Block(entries[k..])| == |entries[k]| + 1 + |Block(entries[k + 1..])|
  {
    assert entries[k..][1..] == entries[k + 1..];
  }

  lemma EmptyBlock()
    ensures Block([]) == "\0"
  {}
}
