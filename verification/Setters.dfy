/** What the two dependency setters leave at the service manager: names are
    resolved, those of the entries kept as well, and one unknown name leaves
    everything as it was. */
module Setters {
  import opened Options
  import opened DoubleNull
  import opened Unformat
  import opened Format
  import opened Dependencies

  /** The entries a text adds. */
  function GroupsOf(text: string): seq<string> {
    if text == "" then [] else Prefixed(Entries(text))
  }

  function ServicesOf(text: string): seq<string> {
    if text == "" then [] else Entries(text)
  }

  /** The list after `native_set_dependongroup`. */
  function GroupsAfter(names: Names, all: seq<string>, text: string): seq<string> {
    if text == "" then WithGroups(all, text)
    else
      match Resolved(names, WithGroups(all, text))
      case None => all
      case Some(resolved) => resolved
  }

  /** The list after `native_set_dependonservice`. */
  function ServicesAfter(names: Names, all: seq<string>, text: string): seq<string> {
    if text == "" then WithServices(all, text)
    else
      match Resolved(names, WithServices(all, text))
      case None => all
      case Some(resolved) => resolved
  }

  /** A canonical name is its own. */
  ghost predicate Stable(names: Names) {
    forall entry :: names(entry).Some? ==> names(names(entry).value) == names(entry)
  }

  /** Entries of the other kind that are put back: as they are when nothing is
      set, and resolved again otherwise. */
  function Kept(names: Names, entries: seq<string>, text: string): Option<seq<string>> {
    if text == "" then Some(entries) else Resolved(names, entries)
  }

  // ----- resolving lists

  lemma {:induction false} ResolvedSplit(names: Names, a: seq<string>, b: seq<string>)
    ensures Resolved(names, a + b) ==
            var x, y := Resolved(names, a), Resolved(names, b);
            if x.Some? && y.Some? then Some(x.value + y.value) else None
  {
    if b == [] {
      assert a + b == a;
      assert Resolved(names, a).Some? ==> Resolved(names, a).value + [] == Resolved(names, a).value;
    } else {
      var n := |b| - 1;
      assert (a + b)[..|a + b| - 1] == a + b[..n];
      ResolvedSplit(names, a, b[..n]);
      var x, y, name := Resolved(names, a), Resolved(names, b[..n]), names(b[n]);
      if x.Some? && y.Some? && name.Some? {
        assert x.value + y.value + [name.value] == x.value + (y.value + [name.value]);
      }
    }
  }

  lemma {:induction false} ResolvedStable(names: Names, entries: seq<string>)
    requires Stable(names) && Resolved(names, entries).Some?
    ensures Resolved(names, Resolved(names, entries).value) == Resolved(names, entries)
  {
    if entries != [] {
      var n := |entries| - 1;
      ResolvedStable(names, entries[..n]);
      var before := Resolved(names, entries[..n]).value;
      assert (before + [names(entries[n]).value])[..|before|] == before;
    }
  }

  /** The names of entries of one kind are of that kind. */
  lemma OneKind(names: Names, kind: Kind, entries: seq<string>)
    requires Sound(names) && Filter(kind, entries) == entries && Resolved(names, entries).Some?
    ensures var r := Resolved(names, entries).value;
            Filter(kind, r) == r && Filter(if kind.Groups? then Services else Groups, r) == []
  {
    hide Filter, Resolved, Sound;
    var other := if kind.Groups? then Services else Groups;
    ResolvedKinds(names, entries, kind);
    ResolvedKinds(names, entries, other);
    FilterTwice(other, kind, entries);
    NothingResolved(names);
  }

  lemma NothingResolved(names: Names)
    ensures Resolved(names, []) == Some([])
  {}

  /** Resolving loses no kind: there are as many names of it as entries. */
  lemma KindCount(names: Names, kind: Kind, entries: seq<string>)
    requires Sound(names) && Resolved(names, entries).Some?
    ensures |Filter(kind, Resolved(names, entries).value)| == |Filter(kind, entries)|
  {
    hide Filter, Resolved, Sound;
    ResolvedKinds(names, entries, kind);
    ResolvedExactly(names, Filter(kind, entries));
  }

  // ----- one setter

  lemma KeptOneKind(names: Names, kind: Kind, all: seq<string>, text: string)
    requires Sound(names) && Kept(names, Filter(kind, all), text).Some?
    ensures var kept := Kept(names, Filter(kind, all), text).value;
            Filter(kind, kept) == kept && Filter(if kind.Groups? then Services else Groups, kept) == []
  {
    hide Filter, Resolved, Sound;
    FilterTwice(kind, kind, all);
    FilterTwice(if kind.Groups? then Services else Groups, kind, all);
    if text != "" {
      OneKind(names, kind, Filter(kind, all));
    }
  }

  lemma GroupsOfAreGroups(names: Names, text: string)
    requires Sound(names) && Resolved(names, GroupsOf(text)).Some?
    ensures var r := Resolved(names, GroupsOf(text)).value; Filter(Groups, r) == r && Filter(Services, r) == []
  {
    hide Resolved, Sound, Entries;
    PrefixedAreGroups(if text == "" then [] else Entries(text));
    assert GroupsOf(text) == Prefixed(if text == "" then [] else Entries(text));
    OneKind(names, Groups, GroupsOf(text));
  }

  /** Setting the groups: it takes effect if and only if the services kept and
      the groups given are all known, and then leaves the names of both. */
  lemma GroupsSetTo(names: Names, all: seq<string>, text: string)
    requires Sound(names)
    ensures var after := GroupsAfter(names, all, text);
            var kept, given := Kept(names, Filter(Services, all), text), Resolved(names, GroupsOf(text));
            if kept.Some? && given.Some? then
              after == kept.value + given.value && Filter(Services, after) == kept.value
                  && Filter(Groups, after) == given.value
            else after == all
  {
    hide Filter, Resolved, Sound, Entries, Prefixed;
    var kept, given := Kept(names, Filter(Services, all), text), Resolved(names, GroupsOf(text));
    NothingResolved(names);
    ResolvedSplit(names, Filter(Services, all), GroupsOf(text));
    if kept.Some? && given.Some? {
      KeptOneKind(names, Services, all, text);
      GroupsOfAreGroups(names, text);
      FilterSplit(Services, kept.value, given.value);
      FilterSplit(Groups, kept.value, given.value);
      assert kept.value + [] == kept.value && [] + given.value == given.value;
    }
  }

  /** Setting the services: it takes effect if and only if the groups kept and
      the entries given are all known. The services are then the names given;
      groups among these join the ones kept. */
  lemma ServicesSetTo(names: Names, all: seq<string>, text: string)
    requires Sound(names)
    ensures var after := ServicesAfter(names, all, text);
            var kept, given := Kept(names, Filter(Groups, all), text), Resolved(names, ServicesOf(text));
            if kept.Some? && given.Some? then
              && after == kept.value + given.value
              && Filter(Services, after) == Filter(Services, given.value)
              && Filter(Groups, after) == kept.value + Filter(Groups, given.value)
            else after == all
  {
    hide Filter, Resolved, Sound, Entries;
    var kept, given := Kept(names, Filter(Groups, all), text), Resolved(names, ServicesOf(text));
    NothingResolved(names);
    ResolvedSplit(names, Filter(Groups, all), ServicesOf(text));
    if kept.Some? && given.Some? {
      KeptOneKind(names, Groups, all, text);
      FilterSplit(Services, kept.value, given.value);
      FilterSplit(Groups, kept.value, given.value);
      assert [] + Filter(Services, given.value) == Filter(Services, given.value);
      assert kept.value + [] == kept.value;
    }
  }

  /** Where the list is canonical already, setting the services keeps the groups
      if and only if some entry given is unknown or none of them is a group. */
  lemma GroupsKeptExactlyWhen(names: Names, all: seq<string>, text: string)
    requires Sound(names) && Resolved(names, Filter(Groups, all)) == Some(Filter(Groups, all))
    ensures Filter(Groups, ServicesAfter(names, all, text)) == Filter(Groups, all) <==>
            Resolved(names, ServicesOf(text)).None? || Filter(Groups, ServicesOf(text)) == []
  {
    hide Filter, Resolved, Sound, Entries, ServicesAfter;
    ServicesSetTo(names, all, text);
    var given := Resolved(names, ServicesOf(text));
    if given.Some? {
      KindCount(names, Groups, ServicesOf(text));
      var more := Filter(Groups, given.value);
      assert |Filter(Groups, all) + more| == |Filter(Groups, all)| + |more|;
      assert Filter(Groups, all) + [] == Filter(Groups, all);
    }
  }

  /** Where the list is canonical already, setting the groups keeps the services
      in any case. */
  lemma ServicesAlwaysKept(names: Names, all: seq<string>, text: string)
    requires Sound(names) && Resolved(names, Filter(Services, all)) == Some(Filter(Services, all))
    ensures Filter(Services, GroupsAfter(names, all, text)) == Filter(Services, all)
  {
    hide Filter, Resolved, Sound, GroupsOf, GroupsAfter;
    GroupsSetTo(names, all, text);
  }

  // ----- both setters

  /** A list put together by one setter, as the other finds it. */
  lemma KeptAgain(names: Names, kind: Kind, entries: seq<string>, text: string)
    requires Sound(names) && Stable(names) && Resolved(names, entries).Some?
    ensures var kind' := Filter(kind, Resolved(names, entries).value); Kept(names, kind', text) == Some(kind')
  {
    hide Filter, Resolved, Sound;
    ResolvedStable(names, entries);
    ResolvedKinds(names, Resolved(names, entries).value, kind);
  }

  /** Groups first, then services. */
  lemma GroupsThenServices(names: Names, all: seq<string>, groups: string, services: string)
    requires Sound(names) && Stable(names)
    ensures var s, g := Kept(names, Filter(Services, all), groups), Kept(names, Filter(Groups, all), services);
            var newGroups, newServices := Resolved(names, GroupsOf(groups)), Resolved(names, ServicesOf(services));
            var after := ServicesAfter(names, GroupsAfter(names, all, groups), services);
            && (newGroups.None? ==> after == ServicesAfter(names, all, services))
            && (newServices.None? ==> after == GroupsAfter(names, all, groups))
            && (newGroups.Some? && newServices.Some? ==>
                  if s.Some? then
                    && Filter(Services, after) == Filter(Services, newServices.value)
                    && Filter(Groups, after) == newGroups.value + Filter(Groups, newServices.value)
                  else after == ServicesAfter(names, all, services))
  {
    hide Filter, Resolved, Sound, Stable, GroupsOf, ServicesOf, GroupsAfter, ServicesAfter, Kept;
    GroupsSetTo(names, all, groups);
    ServicesSetTo(names, GroupsAfter(names, all, groups), services);
    if Resolved(names, GroupsOf(groups)).Some? {
      GroupsOfAreGroups(names, groups);
      KeptAgain(names, Groups, GroupsOf(groups), services);
    }
  }

  /** Services first, then groups. */
  lemma ServicesThenGroups(names: Names, all: seq<string>, groups: string, services: string)
    requires Sound(names) && Stable(names)
    ensures var s, g := Kept(names, Filter(Services, all), groups), Kept(names, Filter(Groups, all), services);
            var newGroups, newServices := Resolved(names, GroupsOf(groups)), Resolved(names, ServicesOf(services));
            var after := GroupsAfter(names, ServicesAfter(names, all, services), groups);
            && (newGroups.None? ==> after == ServicesAfter(names, all, services))
            && (newServices.None? ==> after == GroupsAfter(names, all, groups))
            && (newGroups.Some? && newServices.Some? ==>
                  if g.Some? then
                    && Filter(Services, after) == Filter(Services, newServices.value)
                    && Filter(Groups, after) == newGroups.value
                  else after == GroupsAfter(names, all, groups))
  {
    hide Filter, Resolved, Sound, Stable, GroupsOf, ServicesOf, GroupsAfter, ServicesAfter, Kept;
    ServicesSetTo(names, all, services);
    GroupsSetTo(names, ServicesAfter(names, all, services), groups);
    if Resolved(names, ServicesOf(services)).Some? {
      KeptAgain(names, Services, ServicesOf(services), groups);
    }
  }

  /** When the order of the two setters does not matter: some new name is
      unknown; or what is kept is known either way and no group hides among the
      services; or neither kept list is known; or only one is, and the setting
      that fails first would have changed nothing. */
  predicate OrderIrrelevant(names: Names, all: seq<string>, groups: string, services: string) {
    var s, g := Kept(names, Filter(Services, all), groups), Kept(names, Filter(Groups, all), services);
    var newGroups, newServices := Resolved(names, GroupsOf(groups)), Resolved(names, ServicesOf(services));
    || newGroups.None? || newServices.None?
    || (s.None? && g.None?)
    || (s.Some? && g.Some? && Filter(Groups, newServices.value) == [])
    || (s.Some? && g.None? && Filter(Services, newServices.value) == s.value && Filter(Groups, newServices.value) == [])
    || (s.None? && g.Some? && g.value + Filter(Groups, newServices.value) == newGroups.value)
  }

  ghost predicate SameByKind(a: seq<string>, b: seq<string>) {
    Filter(Services, a) == Filter(Services, b) && Filter(Groups, a) == Filter(Groups, b)
  }

  /** Both settings made one after the other give the same, in either order, if
      and only if `OrderIrrelevant` holds: for every stored list and all texts. */
  lemma OrderIrrelevantExactlyWhen(names: Names, all: seq<string>, groups: string, services: string)
    requires Sound(names) && Stable(names)
    ensures SameByKind(ServicesAfter(names, GroupsAfter(names, all, groups), services),
                       GroupsAfter(names, ServicesAfter(names, all, services), groups))
            <==> OrderIrrelevant(names, all, groups, services)
  {
    hide Filter, Resolved, Sound, Stable, GroupsOf, ServicesOf, GroupsAfter, ServicesAfter, Kept;
    GroupsThenServices(names, all, groups, services);
    ServicesThenGroups(names, all, groups, services);
    GroupsSetTo(names, all, groups);
    ServicesSetTo(names, all, services);
    var newGroups, newServices := Resolved(names, GroupsOf(groups)), Resolved(names, ServicesOf(services));
    if newGroups.Some? && newServices.Some? {
      var more := Filter(Groups, newServices.value);
      assert |newGroups.value + more| == |newGroups.value| + |more|;
      assert newGroups.value + [] == newGroups.value;
    }
  }

  /** Where the list is canonical already, the order does not matter if and only
      if the services text names no group or one of the settings fails. */
  lemma SettersCommute(names: Names, all: seq<string>, groups: string, services: string)
    requires Sound(names) && Stable(names) && Resolved(names, all) == Some(all)
    ensures SameByKind(ServicesAfter(names, GroupsAfter(names, all, groups), services),
                       GroupsAfter(names, ServicesAfter(names, all, services), groups))
            <==> Filter(Groups, ServicesOf(services)) == []
                 || Resolved(names, GroupsOf(groups)).None? || Resolved(names, ServicesOf(services)).None?
  {
    hide Filter, Resolved, Sound, Stable, GroupsOf, ServicesOf, GroupsAfter, ServicesAfter;
    OrderIrrelevantExactlyWhen(names, all, groups, services);
    ResolvedKinds(names, all, Services);
    ResolvedKinds(names, all, Groups);
    if Resolved(names, ServicesOf(services)).Some? {
      KindCount(names, Groups, ServicesOf(services));
    }
  }

  // ----- an input for which the order matters though no group is named

  const OLD: seq<string> := ["old"]

  /** A manager that knows the group g and the service B, and no longer the
      service old. */
  function Known(entry: string): Option<string> {
    if entry == "+g" || entry == "B" then Some(entry) else None
  }

  lemma OneLetter(text: string)
    requires |text| == 1 && text[0] != '\0' && text[0] != '\r' && text[0] != '\n'
    ensures Entries(text) == [text]
  {
    assert text[1..] == "";
    assert Lines("") == [""];
    assert Lines(text) == [[text[0]] + ""] + [""][1..];
    assert [text[0]] + "" == text && [""][1..] == [];
    assert Lines(text) == [text];
    assert NonBlank([text]) == [text] by {
      assert [text][1..] == [];
    }
    assert Cells(text) == text;
    EntriesAreLines(text);
  }

  /** The order matters: while a service that is gone is stored, setting the
      groups first fails, and setting the services first makes room for it. */
  lemma GoneServiceBreaksOrder()
    ensures Sound(Known) && Stable(Known) && Filter(Groups, ServicesOf("B")) == []
    ensures ServicesAfter(Known, GroupsAfter(Known, OLD, "g"), "B") == ["B"]
    ensures GroupsAfter(Known, ServicesAfter(Known, OLD, "B"), "g") == ["B", "+g"]
  {
    hide Entries, Resolved;
    OneLetter("g");
    OneLetter("B");
    assert ["B"][1..] == [];
    OldAndGroup();
    KnownLists();
    assert WithServices(OLD, "B") == ["B"];
    NewAndGroup();
  }

  lemma GroupLetter()
    ensures Prefixed(["g"]) == ["+g"]
  {
    assert ["g"][1..] == [] && [GROUP_IDENTIFIER] + "g" == "+g";
  }

  lemma OldAndGroup()
    requires Entries("g") == ["g"]
    ensures WithGroups(OLD, "g") == ["old", "+g"]
  {
    hide Entries;
    GroupLetter();
    assert OLD[1..] == [];
  }

  lemma NewAndGroup()
    requires Entries("g") == ["g"]
    ensures WithGroups(["B"], "g") == ["B", "+g"]
  {
    hide Entries;
    GroupLetter();
    assert ["B"][1..] == [];
  }

  lemma KnownLists()
    ensures Resolved(Known, ["old", "+g"]) == None
    ensures Resolved(Known, ["B"]) == Some(["B"]) && Resolved(Known, ["B", "+g"]) == Some(["B", "+g"])
  {
    assert ["old", "+g"][..1] == ["old"] && ["old"][..0] == [];
    assert Resolved(Known, ["old"]) == None;
    assert ["B", "+g"][..1] == ["B"] && ["B"][..0] == [];
    NothingResolved(Known);
    var none: seq<string> := [];
    assert none + ["B"] == ["B"] && ["B"] + ["+g"] == ["B", "+g"];
    assert Resolved(Known, ["B"]) == Some(none + ["B"]);
  }
}
