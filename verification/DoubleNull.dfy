/** Lists of strings in memory and on screen: a double-NUL block (every string
    ended by a NUL, one more NUL at the end) against text with a CRLF between
    lines. The functions here say what the two converters compute. */
module DoubleNull {

  const CRLF := "\r\n"

  ghost predicate Free(s: string, c: char) {
    forall k :: 0 <= k < |s| ==> s[k] != c
  }

  // ----- blocks

  /** The block of a list of strings. */
  function Block(strings: seq<string>): string {
    if strings == [] then "\0" else strings[0] + "\0" + Block(strings[1..])
  }

  /** Where the string at the front of a block ends. */
  function StringLength(b: string): (n: nat)
    ensures n <= |b| && Free(b[..n], '\0')
    ensures n < |b| ==> b[n] == '\0'
  {
    if b == "" || b[0] == '\0' then 0 else 1 + StringLength(b[1..])
  }

  /** The list a block holds: its strings up to the first empty one. */
  function Strings(b: string): seq<string> {
    var n := StringLength(b);
    if n == 0 then [] else [b[..n]] + if n < |b| then Strings(b[n + 1..]) else []
  }

  /** A string a block can hold. */
  ghost predicate Storable(s: string) {
    s != "" && Free(s, '\0')
  }

  lemma {:induction false} LengthOf(s: string, rest: string)
    requires Free(s, '\0') && rest != "" && rest[0] == '\0'
    ensures StringLength(s + rest) == |s|
  {
    if s == "" {
      assert s + rest == rest;
    } else {
      assert (s + rest)[1..] == s[1..] + rest;
      LengthOf(s[1..], rest);
    }
  }

  /** A block holds the list it was made from, whatever follows it. */
  lemma {:induction false} StringsOfBlock(strings: seq<string>, rest: string)
    requires forall k :: 0 <= k < |strings| ==> Storable(strings[k])
    ensures Strings(Block(strings) + rest) == strings
  {
    var b := Block(strings) + rest;
    if strings != [] {
      var s, tail := strings[0], Block(strings[1..]) + rest;
      assert b == s + ("\0" + tail);
      LengthOf(s, "\0" + tail);
      assert b[..|s|] == s && b[|s| + 1..] == tail;
      StringsOfBlock(strings[1..], rest);
      assert strings == [s] + strings[1..];
    }
  }

  // ----- text

  /** Every CR starts a CRLF that lies inside the text. */
  ghost predicate Normalised(t: string) {
    forall k :: 0 <= k < |t| && t[k] == '\r' ==> k + 1 < |t| && t[k + 1] == '\n'
  }

  function Join(lines: seq<string>): string {
    if lines == [] then ""
    else if |lines| == 1 then lines[0]
    else lines[0] + CRLF + Join(lines[1..])
  }

  /** The lines of a text, split at every CRLF. */
  function Lines(t: string): (lines: seq<string>)
    ensures lines != []
  {
    if t == "" then [""]
    else if CRLF <= t then [""] + Lines(t[2..])
    else
      var lines := Lines(t[1..]);
      [[t[0]] + lines[0]] + lines[1..]
  }

  lemma NormalisedSuffix(t: string, k: nat)
    requires Normalised(t) && k <= |t|
    ensures Normalised(t[k..])
  {
    assert forall j :: 0 <= j < |t| - k ==> t[k..][j] == t[k + j];
  }

  lemma {:induction false} LinesFree(t: string)
    requires Normalised(t)
    ensures forall line :: line in Lines(t) ==> Free(line, '\r')
  {
    if t != "" {
      if CRLF <= t {
        NormalisedSuffix(t, 2);
        LinesFree(t[2..]);
      } else {
        NormalisedSuffix(t, 1);
        LinesFree(t[1..]);
        assert Lines(t[1..])[0] in Lines(t[1..]);
      }
    }
  }

  lemma JoinCons(c: char, lines: seq<string>)
    requires lines != []
    ensures Join([[c] + lines[0]] + lines[1..]) == [c] + Join(lines)
  {
    var all := [[c] + lines[0]] + lines[1..];
    assert all[1..] == lines[1..];
    if |lines| > 1 {
      assert [c] + lines[0] + CRLF + Join(lines[1..]) == [c] + (lines[0] + CRLF + Join(lines[1..]));
    }
  }

  lemma JoinBlank(lines: seq<string>)
    requires lines != []
    ensures Join([""] + lines) == CRLF + Join(lines)
  {
    assert ([""] + lines)[1..] == lines;
    assert "" + CRLF == CRLF;
  }

  lemma {:induction false} JoinLines(t: string)
    ensures Join(Lines(t)) == t
  {
    hide Join;
    if t == "" {
      JoinOne("");
    } else if CRLF <= t {
      JoinLines(t[2..]);
      JoinBlank(Lines(t[2..]));
      assert t == CRLF + t[2..];
    } else {
      JoinLines(t[1..]);
      JoinCons(t[0], Lines(t[1..]));
      assert t == [t[0]] + t[1..];
    }
  }

  lemma JoinOne(line: string)
    ensures Join([line]) == line
  {}

  lemma {:induction false} LinesJoin(lines: seq<string>)
    requires lines != [] && forall k :: 0 <= k < |lines| ==> Free(lines[k], '\r')
    ensures Lines(Join(lines)) == lines && Normalised(Join(lines))
    decreases |lines|, |lines[0]|
  {
    hide Join;
    var t := Join(lines);
    if lines[0] != "" {
      var c, shorter := lines[0][0], [lines[0][1..]] + lines[1..];
      assert forall k :: 0 <= k < |shorter[0]| ==> shorter[0][k] == lines[0][k + 1];
      LinesJoin(shorter);
      assert shorter[1..] == lines[1..] && [c] + shorter[0] == lines[0];
      assert lines == [[c] + shorter[0]] + shorter[1..];
      JoinCons(c, shorter);
      assert t[1..] == Join(shorter);
      assert forall k :: 1 <= k < |t| ==> t[k] == t[1..][k - 1];
    } else if |lines| > 1 {
      LinesJoin(lines[1..]);
      assert lines == [""] + lines[1..];
      JoinBlank(lines[1..]);
      assert t[2..] == Join(lines[1..]);
      assert forall k :: 2 <= k < |t| ==> t[k] == t[2..][k - 2];
    } else {
      JoinOne("");
      assert lines == [""];
    }
  }

  // ----- what the converters compute

  function NonBlank(lines: seq<string>): seq<string> {
    if lines == [] then []
    else (if lines[0] == "" then [] else [lines[0]]) + NonBlank(lines[1..])
  }

  /** A character of a line as it is stored; a lone LF turns into a NUL. */
  function Cell(c: char): char {
    if c == '\n' then '\0' else c
  }

  function Cells(line: string): string {
    seq(|line|, k requires 0 <= k < |line| => Cell(line[k]))
  }

  function AllCells(lines: seq<string>): seq<string> {
    seq(|lines|, k requires 0 <= k < |lines| => Cells(lines[k]))
  }

  /** The block text is turned into: the non-blank lines, and one NUL to spare
      when the text ends with a CRLF. */
  function Unformatted(t: string): string {
    var lines := Lines(t);
    var kept := NonBlank(lines);
    (if kept == [] then "\0\0" else Block(AllCells(kept))) + if lines[|lines| - 1] == "" then "\0" else ""
  }

  /** The text a block is turned into, given the cell that follows the block:
      a NUL with something after it becomes a CRLF. */
  function Formatted(b: string, next: char): string {
    if b == "" then ""
    else
      var after := if |b| > 1 then b[1] else next;
      (if b[0] == '\0' && after != '\0' then CRLF else [b[0]]) + Formatted(b[1..], next)
  }
}
