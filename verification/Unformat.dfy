/** `unformat_double_null`: the in-place removal of blank lines and the copy of
    what is left into a double-NUL block. */
module Unformat {
  import opened DoubleNull

  // ----- removing blank lines

  /** The compaction loop from position i on: drops a CRLF at the start of the
      text or right before another CRLF, and stops at a CRLF that ends it. */
  function Strip(t: string, i: nat): string
    requires i <= |t|
    decreases |t| - i
  {
    if i == |t| then t
    else if !(CRLF <= t[i..]) then Strip(t, i + 1)
    else if i + 2 == |t| then t
    else if i == 0 || CRLF <= t[i + 2..] then Strip(t[..i] + t[i + 2..], i)
    else Strip(t, i + 1)
  }

  /** The lines a text is left with. */
  function Stripped(lines: seq<string>): string
    requires lines != []
  {
    var kept := NonBlank(lines);
    if kept == [] then if |lines| > 1 then CRLF else ""
    else Join(kept) + if lines[|lines| - 1] == "" then CRLF else ""
  }

  /** The loop runs over a line without touching the text. */
  lemma {:induction false} SkipLine(t: string, i: nat, n: nat)
    requires i + n <= |t|
    requires forall k :: i <= k < i + n ==> t[k] != '\r'
    ensures Strip(t, i) == Strip(t, i + n)
    decreases n
  {
    if n > 0 {
      assert t[i..][0] == t[i] != '\r';
      SkipLine(t, i + 1, n - 1);
    }
  }

  lemma StripEnd(t: string)
    ensures Strip(t, |t|) == t
  {}

  /** The loop at a CRLF. */
  lemma StripAt(before: string, rest: string)
    ensures Strip(before + CRLF + rest, |before|) ==
            if rest == "" then before + CRLF
            else if before == "" || CRLF <= rest then Strip(before + rest, |before|)
            else Strip(before + CRLF + rest, |before| + 2)
  {
    var t, i := before + CRLF + rest, |before|;
    assert t[i..] == CRLF + rest && t[i + 2..] == rest && t[..i] == before;
    assert t[i + 1..][0] == '\n';
    if rest == "" {
      assert t == before + CRLF;
    }
  }

  lemma JoinFront(line: string, more: seq<string>)
    requires more != []
    ensures Join([line] + more) == line + CRLF + Join(more)
  {
    assert ([line] + more)[1..] == more;
  }

  /** A text starts with a CRLF exactly when its first line is blank and not
      its only one. */
  lemma JoinStart(lines: seq<string>)
    requires lines != [] && Free(lines[0], '\r')
    ensures CRLF <= Join(lines) <==> lines[0] == "" && |lines| > 1
    ensures Join(lines) == "" <==> lines == [""]
  {
    if |lines| > 1 {
      assert lines == [lines[0]] + lines[1..];
      JoinFront(lines[0], lines[1..]);
      if lines[0] != "" {
        assert Join(lines)[0] == lines[0][0];
      }
    } else if lines[0] != "" {
      assert Join(lines)[0] == lines[0][0];
    }
  }

  ghost predicate LinesFree(lines: seq<string>) {
    lines != [] && forall k :: 0 <= k < |lines| ==> Free(lines[k], '\r')
  }

  lemma StrippedOne(line: string)
    ensures Stripped([line]) == line
  {
    assert [line][1..] == [];
    assert NonBlank([line]) == if line == "" then [] else [line];
    if line != "" {
      assert line + "" == line;
    }
  }

  lemma StrippedNothing()
    ensures Stripped(["", ""]) == CRLF
  {
    assert ["", ""][1..] == [""] && [""][1..] == [];
    assert NonBlank([""]) == [] && NonBlank(["", ""]) == [];
  }

  /** A blank line before another line does not matter... */
  lemma StrippedBlank(line: string, more: seq<string>)
    requires more != []
    requires line != "" || |more| > 1 || more[0] != ""
    ensures line == "" ==> Stripped([line] + more) == Stripped(more)
    ensures line != "" && more[0] == "" && |more| > 1 ==>
              Stripped([line] + more) == Stripped([line] + more[1..])
  {
    var all := [line] + more;
    assert all[1..] == more && all[|all| - 1] == more[|more| - 1];
    assert NonBlank(all) == (if line == "" then [] else [line]) + NonBlank(more);
    if line == "" {
      assert NonBlank(all) == NonBlank(more);
      assert more[0] != "" ==> NonBlank(more) != [];
    } else if more[0] == "" && |more| > 1 {
      assert NonBlank(more) == NonBlank(more[1..]);
      var short := [line] + more[1..];
      assert short[1..] == more[1..] && short[|short| - 1] == more[|more| - 1];
    }
  }

  /** ...and a non-blank one stays in front of what the rest becomes. */
  lemma StrippedFront(line: string, more: seq<string>)
    requires line != "" && more != []
    ensures more == [""] ==> Stripped([line] + more) == line + CRLF
    ensures more[0] != "" ==> Stripped([line] + more) == line + CRLF + Stripped(more)
  {
    var all := [line] + more;
    assert all[1..] == more && all[|all| - 1] == more[|more| - 1];
    assert NonBlank(all) == [line] + NonBlank(more);
    if more == [""] {
      assert more[1..] == [];
      assert NonBlank(all) == [line];
    } else if more[0] != "" {
      JoinFront(line, NonBlank(more));
    }
  }

  /** Where the loop has got to: past some text that stays, at the start of the
      remaining lines; the first of these is not blank unless nothing stayed. */
  lemma {:induction false} StripLines(stay: string, lines: seq<string>)
    requires LinesFree(lines)
    requires stay == "" || lines[0] != ""
    ensures Strip(stay + Join(lines), |stay|) == stay + Stripped(lines)
    decreases |lines|
  {
    hide Strip, Stripped, Join;
    var t, i := stay + Join(lines), |stay|;
    var line := lines[0];
    if |lines| == 1 {
      assert lines == [line];
      JoinOne(line);
      StrippedOne(line);
      SkipLine(t, i, |line|);
      StripEnd(t);
    } else {
      var more := lines[1..];
      assert lines == [line] + more;
      JoinFront(line, more);
      JoinStart(more);
      var rest := Join(more);
      assert t == stay + line + CRLF + rest;
      SkipLine(t, i, |line|);
      StripAt(stay + line, rest);
      if more == [""] && line == "" {
        StrippedNothing();
        assert lines == ["", ""];
        assert stay + line + CRLF == stay + CRLF;
      } else if more == [""] {
        StrippedFront(line, more);
        assert stay + (line + CRLF) == stay + line + CRLF;
      } else if stay + line == "" {
        StripLines("", more);
        StrippedBlank(line, more);
        assert "" + rest == rest;
      } else if more[0] == "" {
        var short := [line] + more[1..];
        JoinWithout(line, more);
        assert stay + line + rest == stay + (line + rest) == stay + Join(short);
        SkipLine(stay + Join(short), i, |line|);
        StripLines(stay, short);
        StrippedBlank(line, more);
      } else {
        StripLines(stay + line + CRLF, more);
        StrippedFront(line, more);
      }
    }
  }

  lemma JoinWithout(line: string, more: seq<string>)
    requires |more| > 1 && more[0] == ""
    ensures line + Join(more) == Join([line] + more[1..])
  {
    hide Join;
    JoinFront(line, more[1..]);
    assert more == [""] + more[1..];
    JoinFront("", more[1..]);
    assert line + ("" + CRLF + Join(more[1..])) == line + CRLF + Join(more[1..]);
  }

  // ----- the copy

  /** The copying loop: no CR, and a NUL for each LF. */
  function Copy(t: string): string {
    if t == "" then ""
    else Copy(t[..|t| - 1]) + if t[|t| - 1] == '\r' then "" else [Cell(t[|t| - 1])]
  }

  lemma {:induction false} CopySplit(a: string, b: string)
    ensures Copy(a + b) == Copy(a) + Copy(b)
  {
    if b == "" {
      assert a + b == a;
    } else {
      assert (a + b)[..|a + b| - 1] == a + b[..|b| - 1];
      CopySplit(a, b[..|b| - 1]);
    }
  }

  lemma {:induction false} CopyLine(line: string)
    requires Free(line, '\r')
    ensures Copy(line) == Cells(line)
  {
    if line != "" {
      CopyLine(line[..|line| - 1]);
      assert Cells(line) == Cells(line[..|line| - 1]) + [Cell(line[|line| - 1])];
    }
  }

  lemma CopyCrlf()
    ensures Copy(CRLF) == "\0"
  {
    assert CRLF[..1] == "\r" && "\r"[..0] == "";
    assert Copy("\r") == "";
  }

  lemma {:induction false} CopyJoin(lines: seq<string>)
    requires LinesFree(lines)
    ensures Copy(Join(lines)) + "\0\0" == Block(AllCells(lines))
  {
    hide Copy;
    CopyLine(lines[0]);
    var cells := AllCells(lines);
    assert cells[1..] == AllCells(lines[1..]);
    if |lines| == 1 {
      assert Block(cells) == cells[0] + "\0" + "\0";
    } else {
      CopyJoin(lines[1..]);
      CopyCrlf();
      CopySplit(lines[0] + CRLF, Join(lines[1..]));
      CopySplit(lines[0], CRLF);
    }
  }

  lemma {:induction false} KeptLines(lines: seq<string>)
    requires forall k :: 0 <= k < |lines| ==> Free(lines[k], '\r')
    ensures forall k :: 0 <= k < |NonBlank(lines)| ==> Free(NonBlank(lines)[k], '\r') && NonBlank(lines)[k] != ""
  {
    if lines != [] {
      KeptLines(lines[1..]);
    }
  }

  /** What the whole of `unformat_double_null` computes from a text: its
      non-blank lines as a block. */
  lemma StripAndCopy(t: string)
    requires Normalised(t) && t != ""
    ensures Copy(Strip(t, 0)) + "\0\0" == Unformatted(t)
  {
    hide Strip, Copy, Join, NonBlank, Block;
    var lines := Lines(t);
    var kept := NonBlank(lines);
    var blankEnd := lines[|lines| - 1] == "";
    assert |lines| == 1 ==> lines == [lines[0]];
    DoubleNull.LinesFree(t);
    JoinLines(t);
    JoinOne(lines[0]);
    assert "" + t == t;
    StripLines("", lines);
    CopyCrlf();
    CopyNothing();
    if kept == [] {
      AllBlank(lines, |lines| - 1);
      AllBlank(lines, 0);
      assert "" + Stripped(lines) == CRLF;
    } else {
      KeptLines(lines);
      CopyJoin(kept);
      var end := if blankEnd then CRLF else "";
      CopySplit(Join(kept), end);
      var last := if blankEnd then "\0" else "";
      assert Copy(Join(kept)) + last + "\0\0" == Copy(Join(kept)) + "\0\0" + last;
      assert "" + Strip(t, 0) == Strip(t, 0) == Join(kept) + end;
    }
  }

  lemma CopyNothing()
    ensures Copy("") == ""
  {}

  lemma {:induction false} AllBlank(lines: seq<string>, k: nat)
    requires NonBlank(lines) == [] && k < |lines|
    ensures lines[k] == ""
  {
    if k > 0 {
      AllBlank(lines[1..], k - 1);
    }
  }

  // ----- the code itself

  const ULONG := 0x1_0000_0000

  /** Unsigned 32-bit subtraction and addition. */
  function Minus(a: nat, b: nat): (r: nat)
    requires a < ULONG && b < ULONG
    ensures r < ULONG
  {
    (a - b) % ULONG
  }

  function Plus(a: nat, b: nat): (r: nat)
    requires a < ULONG && b < ULONG
    ensures r < ULONG
  {
    (a + b) % ULONG
  }

  lemma Wrapping(i: nat)
    requires i < ULONG - 1
    ensures Plus(Minus(i, 1), 1) == i && Plus(i, 1) == i + 1
    ensures i >= 2 ==> Minus(i, 2) == i - 2
  {}

  /** How many cells of a text are not CR. */
  function Count(t: string): nat {
    if t == "" then 0 else Count(t[..|t| - 1]) + if t[|t| - 1] == '\r' then 0 else 1
  }

  lemma {:induction false} CountIsCopied(t: string)
    ensures Count(t) == |Copy(t)|
  {
    if t != "" {
      CountIsCopied(t[..|t| - 1]);
    }
  }

  /** Takes the two cells at i out of the first dnlen cells. The NULs go to the
      cell after the text and to its last one, as in the source. */
  method RemovePair(dn: array<char>, i: nat, dnlen: nat)
    requires i + 2 <= dnlen < dn.Length
    modifies dn
    ensures dn[..dnlen - 2] == old(dn[..i]) + old(dn[i + 2..dnlen])
  {
    var j := i + 2;
    while j < dnlen
      invariant i + 2 <= j <= dnlen
      invariant dn[..i] == old(dn[..i])
      invariant dn[i..j - 2] == old(dn[i + 2..j])
      invariant dn[j..dnlen] == old(dn[j..dnlen])
    {
      assert dn[j] == dn[j..dnlen][0];
      dn[j - 2] := dn[j];
      j := j + 1;
      assert dn[j..dnlen] == old(dn[j - 1..dnlen])[1..];
      assert dn[i..j - 2] == old(dn[i + 2..j - 1]) + [old(dn[j - 1])];
    }
    dn[dnlen] := '\0';
    dn[dnlen - 1] := '\0';
  }

  /** The loop that skips blank lines, with i and the lengths as 32-bit unsigned
      numbers: i-- at 0 wraps around and i++ brings it back. */
  method StripInPlace(dn: array<char>, length: nat, count: nat) returns (dnlen: nat, newlen: nat)
    requires 0 < length < dn.Length && length < ULONG - 1
    requires Normalised(dn[..length]) && count == Count(dn[..length])
    modifies dn
    ensures dnlen <= length && dn[..dnlen] == Strip(old(dn[..length]), 0)
    ensures newlen == Count(dn[..dnlen])
  {
    hide Strip, Count, Normalised, Plus, Minus;
    dnlen, newlen := length, count;
    ghost var goal := Strip(dn[..length], 0);
    var i: nat := 0;
    while i < dnlen
      invariant 0 < dnlen <= length && i <= dnlen
      invariant Normalised(dn[..dnlen])
      invariant newlen == Count(dn[..dnlen])
      invariant Strip(dn[..dnlen], i) == goal
      decreases dnlen - i
    {
      ghost var t := dn[..dnlen];
      assert forall k :: 0 <= k < dnlen ==> dn[k] == t[k];
      StripStep(t, i);
      Wrapping(i);
      Wrapping(dnlen);
      if dn[i] == '\r' && dn[i + 1] == '\n' {
        if i >= Minus(dnlen, 2) {
          StripEnd(t);
          return;
        }
        if i == 0 || (dn[i + 2] == '\r' && dn[i + 3] == '\n') {
          NormalisedWithoutPair(t, i);
          CountWithoutPair(t, i);
          RemovePair(dn, i, dnlen);
          assert dn[..dnlen - 2] == t[..i] + t[i + 2..];
          dnlen, newlen := dnlen - 2, newlen - 1;
          i := Minus(i, 1);
        }
      }
      i := Plus(i, 1);
    }
    StripEnd(dn[..dnlen]);
  }

  /** One turn of the loop in terms of characters. */
  lemma StripStep(t: string, i: nat)
    requires Normalised(t) && i < |t|
    ensures t[i] == '\r' ==> i + 1 < |t| && t[i + 1] == '\n'
    ensures t[i] == '\r' && i + 2 < |t| && t[i + 2] == '\r' ==> i + 3 < |t| && t[i + 3] == '\n'
    ensures t[i] != '\r' ==> Strip(t, i) == Strip(t, i + 1)
    ensures t[i] == '\r' && i + 2 == |t| ==> Strip(t, i) == t
    ensures t[i] == '\r' && i + 2 < |t| ==>
              Strip(t, i) == if i == 0 || t[i + 2] == '\r' then Strip(t[..i] + t[i + 2..], i) else Strip(t, i + 1)
  {
    assert CRLF <= t[i..] <==> t[i] == '\r';
    assert i + 2 < |t| ==> (CRLF <= t[i + 2..] <==> t[i + 2] == '\r');
  }

  lemma NormalisedWithoutPair(t: string, i: nat)
    requires Normalised(t) && i + 2 < |t| && t[i] == '\r'
    ensures Normalised(t[..i] + t[i + 2..])
  {
    var rest := t[..i] + t[i + 2..];
    assert forall k :: i <= k < |rest| ==> rest[k] == t[k + 2];
  }

  lemma CountWithoutPair(t: string, i: nat)
    requires Normalised(t) && i + 2 < |t| && t[i] == '\r'
    ensures Count(t) == Count(t[..i] + t[i + 2..]) + 1
  {
    hide Copy, Count;
    var a, b := t[..i], t[i + 2..];
    assert t == a + (CRLF + b);
    CopySplit(a, CRLF + b);
    CopySplit(CRLF, b);
    CopySplit(a, b);
    CopyCrlf();
    CountIsCopied(t);
    CountIsCopied(a + b);
  }

  method CountCells(dn: array<char>, dnlen: nat) returns (newlen: nat)
    requires dnlen <= dn.Length
    ensures newlen == Count(dn[..dnlen])
  {
    newlen := 0;
    for i := 0 to dnlen
      invariant newlen == Count(dn[..i])
    {
      assert dn[..i + 1][..i] == dn[..i];
      if dn[i] != '\r' {
        newlen := newlen + 1;
      }
    }
  }

  lemma {:induction false} CopyPrefix(t: string, i: nat)
    requires i <= |t|
    ensures Copy(t[..i]) <= Copy(t)
  {
    if i < |t| {
      CopyPrefix(t[..|t| - 1], i);
      assert t[..|t| - 1][..i] == t[..i];
    } else {
      assert t[..i] == t;
    }
  }

  /** The copy into a zeroed buffer two cells longer than what is copied. */
  method CopyOut(dn: array<char>, dnlen: nat, newlen: nat) returns (block: array<char>)
    requires dnlen <= dn.Length && newlen == Count(dn[..dnlen]) + 2
    ensures fresh(block) && block.Length == newlen
    ensures block[..] == Copy(dn[..dnlen]) + "\0\0"
  {
    block := new char[newlen](_ => '\0');
    var j := 0;
    CountIsCopied(dn[..dnlen]);
    for i := 0 to dnlen
      invariant j == |Copy(dn[..i])| <= newlen - 2
      invariant block[..j] == Copy(dn[..i])
      invariant forall k :: j <= k < newlen ==> block[k] == '\0'
    {
      assert dn[..i + 1][..i] == dn[..i];
      assert dn[..dnlen][..i + 1] == dn[..i + 1];
      CopyPrefix(dn[..dnlen], i + 1);
      if dn[i] != '\r' {
        block[j] := if dn[i] == '\n' then '\0' else dn[i];
        j := j + 1;
        assert block[..j] == Copy(dn[..i]) + [Cell(dn[i])];
      }
    }
  }

  /** `unformat_double_null`: no text gives a null pointer; any other text gives
      its non-blank lines as a block, in a buffer of exactly that size. */
  method UnformatDoubleNull(dn: array<char>, dnlen: nat) returns (unformatted: array?<char>, newlen: nat)
    requires dnlen < dn.Length && dnlen < ULONG - 1
    requires Normalised(dn[..dnlen])
    modifies dn
    ensures dnlen == 0 ==> unformatted == null && newlen == 0
    ensures dnlen != 0 ==> unformatted != null && fresh(unformatted) && newlen == unformatted.Length
    ensures dnlen != 0 ==> unformatted[..] == Unformatted(old(dn[..dnlen]))
  {
    hide Unformatted, Strip, Copy;
    if dnlen == 0 {
      return null, 0;
    }
    StripAndCopy(dn[..dnlen]);
    var count := CountCells(dn, dnlen);
    var left;
    left, newlen := StripInPlace(dn, dnlen, count);
    newlen := newlen + 2;
    unformatted := CopyOut(dn, left, newlen);
  }
}
