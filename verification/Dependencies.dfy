/** Service and group dependencies: one double-NUL list at the service manager
    holds both, and each setter must put the other kind back. */
module Dependencies {
  import opened Options
  import opened DoubleNull
  import opened Unformat
  import opened Format

  const GROUP_IDENTIFIER := '+'

  datatype Kind = Services | Groups

  predicate Of(kind: Kind, entry: string) {
    (entry != "" && entry[0] == GROUP_IDENTIFIER) == kind.Groups?
  }

  /** The entries of one kind, in order. */
  function Filter(kind: Kind, entries: seq<string>): seq<string> {
    if entries == [] then []
    else (if Of(kind, entries[0]) then [entries[0]] else []) + Filter(kind, entries[1..])
  }

  function Identified(entry: string): string {
    if Of(Groups, entry) then entry else [GROUP_IDENTIFIER] + entry
  }

  /** Every entry with one group identifier in front where it was missing. */
  function Prefixed(entries: seq<string>): seq<string> {
    if entries == [] then [] else [Identified(entries[0])] + Prefixed(entries[1..])
  }

  /** The entries a setting's text stands for; the converter is handed the text
      with its terminator. */
  function Entries(text: string): seq<string> {
    Strings(Unformatted(text + "\0"))
  }

  /** The lists the two setters hand on, made from the one there was. */
  function WithGroups(all: seq<string>, text: string): seq<string> {
    Filter(Services, all) + if text == "" then [] else Prefixed(Entries(text))
  }

  function WithServices(all: seq<string>, text: string): seq<string> {
    Filter(Groups, all) + if text == "" then [] else Entries(text)
  }

  // ----- the lists

  lemma {:induction false} FilterSplit(kind: Kind, a: seq<string>, b: seq<string>)
    ensures Filter(kind, a + b) == Filter(kind, a) + Filter(kind, b)
  {
    if a == [] {
      assert a + b == b;
    } else {
      assert (a + b)[1..] == a[1..] + b;
      FilterSplit(kind, a[1..], b);
    }
  }

  lemma {:induction false} FilterTwice(kind: Kind, other: Kind, a: seq<string>)
    ensures Filter(kind, Filter(other, a)) == if kind == other then Filter(kind, a) else []
  {
    if a != [] {
      FilterTwice(kind, other, a[1..]);
      FilterSplit(kind, if Of(other, a[0]) then [a[0]] else [], Filter(other, a[1..]));
    }
  }

  lemma {:induction false} PrefixedAreGroups(a: seq<string>)
    ensures Filter(Groups, Prefixed(a)) == Prefixed(a) && Filter(Services, Prefixed(a)) == []
  {
    if a != [] {
      PrefixedAreGroups(a[1..]);
      assert Of(Groups, Identified(a[0]));
    }
  }

  /** The list handed on to set the groups holds exactly the services there were
      and makes every entry given a group. */
  lemma GroupsSet(all: seq<string>, text: string)
    ensures Filter(Services, WithGroups(all, text)) == Filter(Services, all)
    ensures Filter(Groups, WithGroups(all, text)) == if text == "" then [] else Prefixed(Entries(text))
  {
    var added := if text == "" then [] else Prefixed(Entries(text));
    FilterTwice(Services, Services, all);
    FilterTwice(Groups, Services, all);
    PrefixedAreGroups(Entries(text));
    FilterSplit(Services, Filter(Services, all), added);
    FilterSplit(Groups, Filter(Services, all), added);
  }

  /** The list handed on to set the services holds the groups there were; an
      entry that carries a group identifier lands among them, so the groups are
      the same if and only if the text names none. */
  lemma ServicesSet(all: seq<string>, text: string)
    ensures var added := if text == "" then [] else Entries(text);
            && Filter(Services, WithServices(all, text)) == Filter(Services, added)
            && Filter(Groups, WithServices(all, text)) == Filter(Groups, all) + Filter(Groups, added)
            && (Filter(Groups, WithServices(all, text)) == Filter(Groups, all) <==> Filter(Groups, added) == [])
  {
    var added := if text == "" then [] else Entries(text);
    FilterTwice(Services, Groups, all);
    FilterTwice(Groups, Groups, all);
    FilterSplit(Services, Filter(Groups, all), added);
    FilterSplit(Groups, Filter(Groups, all), added);
    assert Filter(Groups, all) + [] == Filter(Groups, all);
  }

  /** No text holds no entries. */
  lemma NoText()
    ensures Entries("") == []
  {
    var text := "" + "\0";
    LinesWithNul("");
    assert "" + "\0" == "\0";
    assert Lines(text) == ["\0"];
    assert ["\0"][1..] == [];
    assert NonBlank(["\0"]) == ["\0"];
    assert AllCells(["\0"]) == [Cells("\0")];
    BlockOne(Cells("\0"));
    assert Unformatted(text)[0] == '\0';
  }

  /** The lists both settings hand on, one after the other, in either order: the
      services are those set last. Groups named among the services are lost when
      the groups are set later, and join them otherwise; so the order does not
      matter, for any kind, if and only if the services text names no group. */
  lemma ListsCommute(all: seq<string>, groups: string, services: string)
    ensures var after, before := WithServices(WithGroups(all, groups), services),
        WithGroups(WithServices(all, services), groups);
            && Filter(Services, after) == Filter(Services, before) == Filter(Services, Entries(services))
            && Filter(Groups, before) == (if groups == "" then [] else Prefixed(Entries(groups)))
            && Filter(Groups, after) == Filter(Groups, before) + Filter(Groups, Entries(services))
            && ((forall kind :: Filter(kind, after) == Filter(kind, before))
                <==> Filter(Groups, Entries(services)) == [])
  {
    hide Entries;
    NoText();
    GroupsSet(all, groups);
    ServicesSet(WithGroups(all, groups), services);
    ServicesSet(all, services);
    GroupsSet(WithServices(all, services), groups);
    var after, before := WithServices(WithGroups(all, groups), services),
        WithGroups(WithServices(all, services), groups);
    assert |Filter(Groups, after)| == |Filter(Groups, before)| + |Filter(Groups, Entries(services))|;
    forall kind: Kind ensures Filter(Groups, Entries(services)) == [] ==> Filter(kind, after) == Filter(kind, before) {
      if kind == Groups {} else {}
    }
  }

  // ----- the names the service manager knows

  const SERVICE_NAME_LENGTH := 256

  /** The canonical name of a dependency, if there is such a service or group. */
  type Names = string -> Option<string>

  /** Canonical names can be stored, fit the buffer they are given and are of
      the same kind. */
  ghost predicate Sound(names: Names) {
    forall entry :: names(entry).Some? ==>
      var name := names(entry).value;
      Storable(name) && |name| < SERVICE_NAME_LENGTH && (Of(Groups, name) <==> Of(Groups, entry))
  }

  /** All the canonical names, if every entry has one. */
  function Resolved(names: Names, entries: seq<string>): Option<seq<string>> {
    if entries == [] then Some([])
    else
      var before, name := Resolved(names, entries[..|entries| - 1]), names(entries[|entries| - 1]);
      if before.Some? && name.Some? then Some(before.value + [name.value]) else None
  }

  /** Either some entry is unknown, or every one is replaced by its name. */
  lemma {:induction false} ResolvedExactly(names: Names, entries: seq<string>)
    ensures Resolved(names, entries).None? <==> exists k :: 0 <= k < |entries| && names(entries[k]).None?
    ensures Resolved(names, entries).Some? ==>
              var r := Resolved(names, entries).value;
              |r| == |entries| && forall k :: 0 <= k < |r| ==> names(entries[k]) == Some(r[k])
  {
    if entries != [] {
      var n := |entries| - 1;
      ResolvedExactly(names, entries[..n]);
      assert forall k :: 0 <= k < n ==> entries[..n][k] == entries[k];
      if Resolved(names, entries[..n]).None? {
        var k :| 0 <= k < n && names(entries[..n][k]).None?;
        assert names(entries[k]).None?;
      }
    }
  }

  /** The resolved list holds, of each kind, the names of the entries of that
      kind: resolving and picking out a kind can be done in either order. */
  lemma {:induction false} ResolvedKinds(names: Names, entries: seq<string>, kind: Kind)
    requires Sound(names) && Resolved(names, entries).Some?
    ensures Resolved(names, Filter(kind, entries)) == Some(Filter(kind, Resolved(names, entries).value))
  {
    hide Filter;
    if entries == [] {
      FilterOne(kind, []);
    } else {
      var n := |entries| - 1;
      var init, last := entries[..n], entries[n];
      ResolvedKinds(names, init, kind);
      var name := names(last).value;
      assert entries == init + [last];
      FilterSplit(kind, init, [last]);
      FilterSplit(kind, Resolved(names, init).value, [name]);
      FilterOne(kind, [last]);
      FilterOne(kind, [name]);
      var kept := Filter(kind, init);
      assert (kept + [last])[..|kept|] == kept && kept + [] == kept;
      assert Filter(kind, Resolved(names, init).value) + [] == Filter(kind, Resolved(names, init).value);
    }
  }

  lemma FilterOne(kind: Kind, entries: seq<string>)
    requires |entries| <= 1
    ensures Filter(kind, entries) == if entries != [] && Of(kind, entries[0]) then entries else []
  {}

  /** Setting groups that all resolve, where the services kept are canonical
      already: the services stay as they were, and the groups are the names of
      the entries given. */
  lemma GroupsResolved(names: Names, all: seq<string>, text: string)
    requires Sound(names) && Resolved(names, WithGroups(all, text)).Some?
    requires Resolved(names, Filter(Services, all)) == Some(Filter(Services, all))
    ensures var r := Resolved(names, WithGroups(all, text)).value;
            && Filter(Services, r) == Filter(Services, all)
            && Resolved(names, if text == "" then [] else Prefixed(Entries(text))) == Some(Filter(Groups, r))
  {
    hide Filter, Resolved;
    GroupsSet(all, text);
    ResolvedKinds(names, WithGroups(all, text), Services);
    ResolvedKinds(names, WithGroups(all, text), Groups);
  }

  // ----- the text with its terminator

  function WithNul(lines: seq<string>): seq<string>
    requires lines != []
  {
    lines[..|lines| - 1] + [lines[|lines| - 1] + "\0"]
  }

  lemma {:induction false} LinesWithNul(t: string)
    ensures Lines(t + "\0") == WithNul(Lines(t))
  {
    hide Lines, WithNul;
    if t == "" {
      NulLine();
    } else if CRLF <= t {
      NulAfterBreak(t);
      LinesWithNul(t[2..]);
      WithNulBlank(Lines(t[2..]));
    } else {
      NulAfterChar(t);
      LinesWithNul(t[1..]);
      WithNulCons(t[0], Lines(t[1..]));
    }
  }

  lemma NulLine()
    ensures Lines("" + "\0") == WithNul(Lines(""))
  {
    var u := "" + "\0";
    assert u == "\0" && u[1..] == "" && |CRLF| == 2;
    assert ['\0'] + "" == "\0" == "" + "\0";
    assert Lines(u) == ["\0"] == WithNul([""]);
  }

  lemma NulAfterBreak(t: string)
    requires CRLF <= t
    ensures Lines(t) == [""] + Lines(t[2..])
    ensures Lines(t + "\0") == [""] + Lines(t[2..] + "\0")
  {
    var u := t + "\0";
    assert u[..2] == t[..2] == CRLF;
    assert u[2..] == t[2..] + "\0" && CRLF <= u;
  }

  lemma WithNulBlank(lines: seq<string>)
    requires lines != []
    ensures WithNul([""] + lines) == [""] + WithNul(lines)
  {
    assert ([""] + lines)[..|lines|] == [""] + lines[..|lines| - 1];
  }

  lemma NulAfterChar(t: string)
    requires t != "" && !(CRLF <= t)
    ensures Lines(t) == [[t[0]] + Lines(t[1..])[0]] + Lines(t[1..])[1..]
    ensures Lines(t + "\0") == [[t[0]] + Lines(t[1..] + "\0")[0]] + Lines(t[1..] + "\0")[1..]
  {
    var u := t + "\0";
    assert |CRLF| == 2 && u[|t|] == '\0';
    assert |t| >= 2 ==> u[..2] == t[..2];
    assert u[1..] == t[1..] + "\0" && u[0] == t[0];
  }

  lemma WithNulCons(c: char, lines: seq<string>)
    requires lines != []
    ensures WithNul([[c] + lines[0]] + lines[1..]) == [[c] + WithNul(lines)[0]] + WithNul(lines)[1..]
  {
    if |lines| == 1 {
      assert [c] + (lines[0] + "\0") == [c] + lines[0] + "\0";
    }
  }

  lemma {:induction false} NonBlankSplit(a: seq<string>, b: seq<string>)
    ensures NonBlank(a + b) == NonBlank(a) + NonBlank(b)
  {
    if a == [] {
      assert a + b == b;
    } else {
      assert (a + b)[1..] == a[1..] + b;
      NonBlankSplit(a[1..], b);
    }
  }

  ghost predicate Terminated(b: string) {
    && b != "" && b[|b| - 1] == '\0'
    && (|b| > 1 ==> b[|b| - 2] == '\0')
  }

  /** Anything that ends in two NULs starts with the block of its strings, and
      adding to it does not change the list it holds. */
  lemma {:induction false} TerminatedBlock(b: string)
    requires Terminated(b)
    ensures Block(Strings(b)) <= b
    ensures forall k :: 0 <= k < |Strings(b)| ==> Storable(Strings(b)[k])
    decreases |b|
  {
    hide Strings, Block;
    var n := StringLength(b);
    if n == 0 {
      NoStringsAt(b);
    } else {
      var rest := b[n + 1..];
      StringAt(b);
      TerminatedBlock(rest);
      BlockCons([b[..n]] + Strings(rest));
      assert ([b[..n]] + Strings(rest))[1..] == Strings(rest);
      assert b == b[..n] + "\0" + rest;
      Behind(b[..n] + "\0", Block(Strings(rest)), rest);
    }
  }

  lemma Behind(front: string, a: string, b: string)
    requires a <= b
    ensures front + a <= front + b
  {}

  lemma NoStringsAt(b: string)
    requires b != "" && StringLength(b) == 0
    ensures Strings(b) == [] && Block([]) <= b
  {}

  lemma StringAt(b: string)
    requires Terminated(b) && StringLength(b) > 0
    ensures var n := StringLength(b);
            && n + 1 < |b| && b[n] == '\0' && Storable(b[..n]) && Terminated(b[n + 1..])
            && Strings(b) == [b[..n]] + Strings(b[n + 1..])
  {
    var n := StringLength(b);
    assert forall k :: 0 <= k < n ==> b[..n][k] == b[k];
    assert b[|b| - 1] == '\0';
  }

  lemma TerminatedAndMore(b: string, more: string)
    requires Terminated(b)
    ensures Strings(b + more) == Strings(b)
  {
    hide Block, Strings;
    TerminatedBlock(b);
    var block := Block(Strings(b));
    var rest := b[|block|..] + more;
    assert b == block + b[|block|..];
    assert b + more == block + rest;
    StringsOfBlock(Strings(b), rest);
  }

  lemma {:induction false} BlockSplit(a: seq<string>, b: seq<string>)
    ensures Block(a) != "" && Block(a) == Block(a)[..|Block(a)| - 1] + "\0"
    ensures Block(a + b) == Block(a)[..|Block(a)| - 1] + Block(b)
  {
    if a == [] {
      assert a + b == b;
    } else {
      var head, tail := a[0] + "\0", Block(a[1..]);
      BlockSplit(a[1..], b);
      assert (a + b)[1..] == a[1..] + b && (a + b)[0] == a[0];
      BlockCons(a);
      BlockCons(a + b);
      Front(head, tail, Block(b));
    }
  }

  lemma BlockCons(a: seq<string>)
    requires a != []
    ensures Block(a) == a[0] + "\0" + Block(a[1..])
  {}

  lemma Front(head: string, tail: string, more: string)
    requires tail != "" && tail == tail[..|tail| - 1] + "\0"
    ensures var all := head + tail;
            && all[..|all| - 1] == head + tail[..|tail| - 1]
            && all == all[..|all| - 1] + "\0"
            && head + (tail[..|tail| - 1] + more) == head + tail[..|tail| - 1] + more
  {
    var all := head + tail;
    assert all[..|all| - 1] == head + tail[..|tail| - 1];
    assert all[|all| - 1] == tail[|tail| - 1] == '\0';
  }

  lemma BlockOne(s: string)
    ensures Block([s]) == s + "\0\0"
  {
    assert [s][1..] == [];
    assert s + "\0" + "\0" == s + "\0\0";
  }

  lemma AllCellsSnoc(lines: seq<string>, line: string)
    ensures AllCells(lines + [line]) == AllCells(lines) + [Cells(line)]
    ensures Cells(line + "\0") == Cells(line) + "\0"
  {}

  /** One more NUL at the end of a text is at most one more NUL in the block. */
  lemma UnformattedWithNul(text: string)
    ensures Unformatted(text + "\0") == Unformatted(text) || Unformatted(text + "\0") == Unformatted(text) + "\0"
  {
    hide Lines, NonBlank, Block, AllCells, Cells;
    var lines := Lines(text);
    var front, last := lines[..|lines| - 1], lines[|lines| - 1];
    LinesWithNul(text);
    assert lines == front + [last];
    NonBlankSplit(front, [last]);
    NonBlankSplit(front, [last + "\0"]);
    NonBlankOne(last);
    NonBlankOne(last + "\0");
    var kept := NonBlank(front);
    var b := Block(AllCells(kept));
    BlockSplit(AllCells(kept), [Cells(last + "\0")]);
    BlockSplit(AllCells(kept), [Cells(last)]);
    AllCellsSnoc(kept, last + "\0");
    AllCellsSnoc(kept, last);
    BlockOne(Cells(last + "\0"));
    BlockOne(Cells(last));
    var b0 := b[..|b| - 1];
    assert Unformatted(text + "\0") == b0 + (Cells(last) + "\0" + "\0\0");
    if last == "" {
      NothingStored();
      if kept == [] {
        assert Unformatted(text) == "\0\0" + "\0";
        assert Unformatted(text + "\0") == "\0\0\0";
      } else {
        assert kept + [] == kept;
        assert Unformatted(text) == b + "\0";
        assert Unformatted(text + "\0") == b + "\0" + "\0";
      }
    } else {
      assert Unformatted(text) + "" == Unformatted(text) == b0 + (Cells(last) + "\0\0");
      assert Unformatted(text + "\0") == Unformatted(text) + "\0";
    }
  }

  lemma NonBlankOne(line: string)
    ensures NonBlank([line]) == if line == "" then [] else [line]
  {
    assert [line][1..] == [];
  }

  lemma NothingStored()
    ensures Cells("") == "" && Block(AllCells([])) == "\0"
  {}

  /** The terminator handed over with the text makes no difference: an entry is
      a non-blank line, if and only if no such line holds a lone LF. */
  lemma EntriesAreLines(text: string)
    requires Normalised(text) && text != "" && Free(text, '\0')
    ensures Entries(text) == Strings(Unformatted(text))
    ensures Entries(text) == NonBlank(Lines(text)) <==> Clean(NonBlank(Lines(text)))
  {
    hide Unformatted, Strings, Lines, NonBlank, Strip, Copy;
    UnformattedWithNul(text);
    StripAndCopy(text);
    TerminatedAndMore(Unformatted(text), "\0");
    UnformattedHoldsLines(text);
  }
}
