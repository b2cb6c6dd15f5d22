/** `format_double_null`, and the two directions of the conversion together. */
module Format {
  import opened DoubleNull
  import opened Unformat

  // ----- what a formatted block looks like

  lemma {:induction false} FormatString(s: string, rest: string, next: char)
    requires Free(s, '\0')
    ensures Formatted(s + rest, next) == s + Formatted(rest, next)
  {
    if s == "" {
      assert s + rest == rest;
    } else {
      assert (s + rest)[1..] == s[1..] + rest;
      FormatString(s[1..], rest, next);
    }
  }

  /** A block reads as its strings on lines of their own, then the two NULs it
      ends with; the last one survives only if a NUL follows the block. */
  lemma {:induction false} FormatBlock(strings: seq<string>, next: char)
    requires strings != [] && forall k :: 0 <= k < |strings| ==> Storable(strings[k])
    ensures Formatted(Block(strings), next) == Join(strings) + "\0" + if next == '\0' then "\0" else CRLF
  {
    hide Formatted, Join, Block;
    var rest, tail := Block(strings[1..]), if next == '\0' then "\0" else CRLF;
    BlockFirst(strings);
    Glue(strings[0], "", rest);
    FormatString(strings[0], "\0" + rest, next);
    BlockNotEmpty(strings[1..]);
    FormatNul(rest, next);
    JoinFirst(strings);
    if |strings| > 1 {
      FormatBlock(strings[1..], next);
      BlockStarts(strings[1..]);
      Glue(strings[0], Join(strings[1..]), tail);
    } else {
      FormatLast(next);
      Glue(strings[0], "", tail);
    }
  }

  lemma Glue(line: string, more: string, tail: string)
    ensures line + (CRLF + (more + "\0" + tail)) == line + CRLF + more + "\0" + tail
    ensures line + ("\0" + tail) == line + "\0" + tail
  {}

  lemma BlockFirst(strings: seq<string>)
    requires strings != []
    ensures Block(strings) == strings[0] + "\0" + Block(strings[1..])
    ensures |strings| == 1 ==> Block(strings[1..]) == "\0"
  {}

  lemma BlockNotEmpty(strings: seq<string>)
    ensures Block(strings) != ""
  {}

  lemma FormatNul(rest: string, next: char)
    requires rest != ""
    ensures Formatted("\0" + rest, next) == (if rest[0] != '\0' then CRLF else "\0") + Formatted(rest, next)
  {
    assert ("\0" + rest)[1..] == rest;
  }

  lemma FormatLast(next: char)
    ensures Formatted("\0", next) == if next == '\0' then "\0" else CRLF
  {
    assert "\0"[1..] == "";
  }

  lemma JoinFirst(lines: seq<string>)
    requires lines != []
    ensures Join(lines) == if |lines| == 1 then lines[0] else lines[0] + CRLF + Join(lines[1..])
  {}

  lemma BlockStarts(strings: seq<string>)
    requires strings != [] && Storable(strings[0])
    ensures Block(strings) != "" && Block(strings)[0] != '\0'
  {}

  /** The formatted text ends like a block, with exactly two NULs, if and only
      if the cell after the block is a NUL: the loop peeks one cell too far. */
  lemma FormattedEndsInTwoNuls(strings: seq<string>, next: char)
    requires strings != [] && forall k :: 0 <= k < |strings| ==> Storable(strings[k])
    ensures Formatted(Block(strings), next) == Join(strings) + "\0\0" <==> next == '\0'
  {
    FormatBlock(strings, next);
    var f := Formatted(Block(strings), next);
    if next == '\0' {
      assert Join(strings) + "\0" + "\0" == Join(strings) + "\0\0";
    } else {
      assert |f| == |Join(strings)| + 3;
    }
  }

  // ----- there and back

  /** A string that is one line of text. */
  ghost predicate Printable(s: string) {
    Storable(s) && Free(s, '\r') && Free(s, '\n')
  }

  lemma {:induction false} KeepAll(lines: seq<string>)
    requires forall k :: 0 <= k < |lines| ==> lines[k] != ""
    ensures NonBlank(lines) == lines
  {
    if lines != [] {
      KeepAll(lines[1..]);
    }
  }

  lemma SameCells(lines: seq<string>)
    requires forall k :: 0 <= k < |lines| ==> Free(lines[k], '\n')
    ensures AllCells(lines) == lines
  {
    forall k | 0 <= k < |lines| ensures Cells(lines[k]) == lines[k] {}
  }

  lemma {:induction false} JoinFree(lines: seq<string>, c: char)
    requires c != '\r' && c != '\n' && forall k :: 0 <= k < |lines| ==> Free(lines[k], c)
    ensures Free(Join(lines), c)
  {
    if |lines| > 1 {
      JoinFree(lines[1..], c);
    }
  }

  /** Up to its terminator, the text of a block is the strings on lines of
      their own. */
  lemma FormattedText(strings: seq<string>)
    requires strings != [] && forall k :: 0 <= k < |strings| ==> Storable(strings[k])
    ensures var formatted := Formatted(Block(strings), '\0');
            formatted[..StringLength(formatted)] == Join(strings)
  {
    hide Formatted, Join, Block, StringLength;
    FormatBlock(strings, '\0');
    JoinFree(strings, '\0');
    var text := Join(strings);
    UpToTerminator(Formatted(Block(strings), '\0'), text);
  }

  lemma UpToTerminator(formatted: string, text: string)
    requires Free(text, '\0') && formatted == text + "\0" + "\0"
    ensures formatted[..StringLength(formatted)] == text
  {
    hide StringLength;
    assert formatted == text + "\0\0";
    LengthOf(text, "\0\0");
  }

  /** The round trip: for every list of printable strings, formatting its block
      and unformatting the text before the terminator gives back the identical
      block. Only for the empty list is there no text, which comes back as a null
      pointer instead of a block. */
  lemma RoundTrip(strings: seq<string>)
    requires forall k :: 0 <= k < |strings| ==> Printable(strings[k])
    ensures var formatted := Formatted(Block(strings), '\0');
            var text := formatted[..StringLength(formatted)];
            && Normalised(text)
            && (text == "" <==> strings == [])
            && (strings != [] ==> Unformatted(text) == Block(strings))
  {
    hide Formatted, Lines, NonBlank, Join, Block, StringLength, Unformatted;
    if strings == [] {
      EmptyFormats();
    } else {
      FormattedText(strings);
      ThereAndBack(strings);
    }
  }

  lemma ThereAndBack(strings: seq<string>)
    requires strings != [] && forall k :: 0 <= k < |strings| ==> Printable(strings[k])
    ensures var text := Join(strings);
            Normalised(text) && text != "" && Unformatted(text) == Block(strings)
  {
    hide Lines, NonBlank, Join, Block;
    LinesJoin(strings);
    KeepAll(strings);
    SameCells(strings);
    assert Block(strings) + "" == Block(strings);
    JoinNotEmpty(strings);
  }

  lemma JoinNotEmpty(strings: seq<string>)
    requires strings != [] && strings[0] != ""
    ensures Join(strings) != ""
  {}

  lemma EmptyFormats()
    ensures var f := Formatted(Block([]), '\0'); f == "\0" && StringLength(f) == 0
  {
    assert "\0"[1..] == "" && "\0" + "" == "\0";
  }

  // ----- what the unformatted block holds

  lemma {:induction false} StringsFree(b: string, c: char)
    requires Free(b, c)
    ensures forall s :: s in Strings(b) ==> Free(s, c) && Free(s, '\0')
    decreases |b|
  {
    var n := StringLength(b);
    if 0 < n < |b| {
      var rest := b[n + 1..];
      assert forall k :: 0 <= k < |rest| ==> rest[k] == b[n + 1 + k];
      StringsFree(rest, c);
    }
  }

  lemma {:induction false} BlockFree(strings: seq<string>, c: char)
    requires c != '\0' && forall k :: 0 <= k < |strings| ==> Free(strings[k], c)
    ensures Free(Block(strings), c)
  {
    if strings != [] {
      BlockFree(strings[1..], c);
    }
  }

  /** Nothing in a line that a block cannot hold. */
  ghost predicate Clean(lines: seq<string>) {
    forall k :: 0 <= k < |lines| ==> Free(lines[k], '\0') && Free(lines[k], '\n')
  }

  /** The block of a text in which not every line is blank. */
  lemma UnformattedKept(t: string)
    requires NonBlank(Lines(t)) != []
    ensures Unformatted(t) == Block(AllCells(NonBlank(Lines(t)))) + if Lines(t)[|Lines(t)| - 1] == "" then "\0" else ""
  {}

  lemma CleanIfHeld(lines: seq<string>, spare: string)
    requires spare == "" || spare == "\0"
    requires Strings(Block(AllCells(lines)) + spare) == lines
    ensures Clean(lines)
  {
    BlockFree(AllCells(lines), '\n');
    StringsFree(Block(AllCells(lines)) + spare, '\n');
    forall k | 0 <= k < |lines| ensures Free(lines[k], '\0') && Free(lines[k], '\n') {
      assert lines[k] in lines;
    }
  }

  /** The list that comes out of a text is its non-blank lines, in order, if and
      only if none of these holds a NUL or a lone LF. */
  lemma UnformattedHoldsLines(t: string)
    requires Normalised(t)
    ensures Strings(Unformatted(t)) == NonBlank(Lines(t)) <==> Clean(NonBlank(Lines(t)))
  {
    hide Lines, NonBlank, Strings, Unformatted, Block;
    var kept := NonBlank(Lines(t));
    DoubleNull.LinesFree(t);
    KeptLines(Lines(t));
    if kept == [] {
      NothingHeld(t);
    } else {
      UnformattedKept(t);
      var spare := if Lines(t)[|Lines(t)| - 1] == "" then "\0" else "";
      if Clean(kept) {
        SameCells(kept);
        StringsOfBlock(kept, spare);
      }
      if Strings(Block(AllCells(kept)) + spare) == kept {
        CleanIfHeld(kept, spare);
      }
    }
  }

  lemma NothingHeld(t: string)
    requires NonBlank(Lines(t)) == []
    ensures Strings(Unformatted(t)) == []
  {}

  // ----- the code itself

  /** `format_double_null`: the text of a block in a buffer of exactly its size.
      It looks at the cell after the block, dn[dnlen]. */
  method FormatDoubleNull(dn: array<char>, dnlen: nat) returns (formatted: array?<char>, newlen: nat)
    requires dnlen < dn.Length
    ensures dnlen == 0 ==> formatted == null && newlen == 0
    ensures dnlen != 0 ==> formatted != null && newlen == formatted.Length
    ensures dnlen != 0 ==> formatted[..] == Formatted(dn[..dnlen], dn[dnlen])
  {
    hide Formatted;
    newlen := dnlen;
    if newlen == 0 {
      return null, 0;
    }
    FormatNothing(dn[dnlen]);
    assert dn[0..dnlen] == dn[..dnlen] && dn[dnlen..dnlen] == "";
    for i := 0 to dnlen
      invariant newlen >= dnlen
      invariant newlen - dnlen + i + |Formatted(dn[i..dnlen], dn[dnlen])| == |Formatted(dn[..dnlen], dn[dnlen])|
    {
      FormatCell(dn, i, dnlen);
      if dn[i] == '\0' && dn[i + 1] != '\0' {
        newlen := newlen + 1;
      }
    }
    formatted := FillFormatted(dn, dnlen, newlen);
  }

  lemma FormatNothing(next: char)
    ensures Formatted("", next) == ""
  {}

  method FillFormatted(dn: array<char>, dnlen: nat, newlen: nat) returns (formatted: array<char>)
    requires dnlen < dn.Length && newlen == |Formatted(dn[..dnlen], dn[dnlen])|
    ensures fresh(formatted) && formatted[..] == Formatted(dn[..dnlen], dn[dnlen])
  {
    hide Formatted;
    formatted := new char[newlen](_ => '\0');
    var j := 0;
    FormatNothing(dn[dnlen]);
    assert dn[0..dnlen] == dn[..dnlen] && dn[dnlen..dnlen] == "";
    for i := 0 to dnlen
      invariant j <= newlen
      invariant formatted[..j] + Formatted(dn[i..dnlen], dn[dnlen]) == Formatted(dn[..dnlen], dn[dnlen])
    {
      FormatCell(dn, i, dnlen);
      ghost var done, rest := formatted[..j], Formatted(dn[i + 1..dnlen], dn[dnlen]);
      assert newlen == |done| + |Formatted(dn[i..dnlen], dn[dnlen])|;
      formatted[j] := dn[i];
      if dn[i] == '\0' && dn[i + 1] != '\0' {
        formatted[j] := '\r';
        j := j + 1;
        formatted[j] := '\n';
        assert formatted[..j + 1] == done + CRLF;
        assert done + CRLF + rest == done + (CRLF + rest);
      } else {
        assert formatted[..j + 1] == done + [dn[i]];
        assert done + [dn[i]] + rest == done + ([dn[i]] + rest);
      }
      j := j + 1;
    }
    assert formatted[..j] + "" == formatted[..];
  }

  lemma FormatCell(dn: array<char>, i: nat, dnlen: nat)
    requires i < dnlen < dn.Length
    ensures Formatted(dn[i..dnlen], dn[dnlen]) ==
            (if dn[i] == '\0' && dn[i + 1] != '\0' then CRLF else [dn[i]]) + Formatted(dn[i + 1..dnlen], dn[dnlen])
  {
    assert dn[i..dnlen][1..] == dn[i + 1..dnlen];
  }
}
