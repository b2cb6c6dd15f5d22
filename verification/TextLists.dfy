/** What the converters and setters pick out of a list, entry by entry. */
module TextLists {
  import opened Parts
  import opened DoubleNull
  import opened Dependencies

  /** The lines that are kept are those that are not empty, in order. */
  lemma {:induction false} KeptLines(lines: seq<string>)
    ensures PartWhere(NonBlank(lines), lines, set i: nat | i < |lines| && lines[i] != "")
  {
    hide PartWhere;
    var all := set i: nat | i < |lines| && lines[i] != "";
    if lines == [] {
      NothingWhere<string>(all);
    } else {
      KeptLines(lines[1..]);
      var rest := lines[1..];
      var wanted := set i: nat | i < |rest| && rest[i] != "";
      PartWhereCons(NonBlank(rest), lines, wanted, all);
    }
  }

  /** A line is stored as it is, but for a NUL in place of each lone LF. */
  lemma StoredLine(line: string)
    ensures |Cells(line)| == |line|
    ensures forall k :: 0 <= k < |line| ==> Cells(line)[k] == if line[k] == '\n' then '\0' else line[k]
  {}

  /** The groups are the entries that begin with '+', the services all others,
      each in order. */
  lemma {:induction false} KindExactly(kind: Kind, entries: seq<string>)
    ensures PartWhere(Filter(kind, entries), entries,
                      set i: nat | i < |entries| && (kind == Groups <==> entries[i] != "" && entries[i][0] == '+'))
  {
    hide PartWhere;
    var all := set i: nat | i < |entries| && (kind == Groups <==> entries[i] != "" && entries[i][0] == '+');
    if entries == [] {
      NothingWhere<string>(all);
    } else {
      KindExactly(kind, entries[1..]);
      var rest := entries[1..];
      var wanted := set i: nat | i < |rest| && (kind == Groups <==> rest[i] != "" && rest[i][0] == '+');
      PartWhereCons(Filter(kind, rest), entries, wanted, all);
    }
  }

  /** Every entry made a group begins with '+' and is otherwise as it was given:
      an entry that began with one gets no second. */
  lemma {:induction false} PrefixedExactly(entries: seq<string>)
    ensures |Prefixed(entries)| == |entries|
    ensures forall k :: 0 <= k < |entries| ==>
              Prefixed(entries)[k] ==
              if entries[k] != "" && entries[k][0] == '+' then entries[k] else "+" + entries[k]
  {
    if entries != [] {
      PrefixedExactly(entries[1..]);
      assert forall k :: 1 <= k < |entries| ==> entries[1..][k - 1] == entries[k];
    }
  }
}
