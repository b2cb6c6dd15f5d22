/** The thread that copies a service's output to its log file and rotates the file
    at a line end (tools/nssm/src/io.cpp). Text has one byte per character; every
    read, write and reopening succeeds. What a rename answers is arbitrary. */
module LogRotation {

  const NEWLINE: char := '\n'

  /** The size of the buffer one read fills. */
  const BUFFER_SIZE: nat := 1024

  /** *rotate_online: Asap asks for a rotation at the next line end. The thread
      is started when it is Online; a stop of the service makes it Offline. */
  datatype Flag = Offline | Online | Asap

  datatype Disposition = OpenAlways | CreateAlways

  /** What MoveFile answers: done, ERROR_FILE_NOT_FOUND (the file at the path is no
      longer the one that was being written), or another error, which leaves the
      file where it is. */
  datatype Move = Moved | NotFound | Failed

  /** The answer to a rename attempted for a line end at a given index of the
      buffer. */
  type Moves = int -> Move

  /** `closed` are the files that will never be written again, oldest first, and
      `live` is what the open file holds. `size` and `out` are the C variables of
      those names; `limit` is logger->size. */
  datatype Log = Log(closed: seq<string>, live: string, size: int, out: int,
                     flag: Flag, limit: nat, disposition: Disposition)

  datatype Scanned = Scanned(log: Log, address: nat)

  function Concat(files: seq<string>): (r: string) {
    if files == [] then [] else Concat(files[..|files| - 1]) + files[|files| - 1]
  }

  /** Everything that was handed to WriteFile, in order. */
  function Text(g: Log): (r: string) {
    Concat(g.closed) + g.live
  }

  // ----- operations as functions

  function Write(g: Log, s: string): (r: Log) {
    g.(live := g.live + s, size := g.size + |s|, out := |s|)
  }

  /** What the path holds when it is opened again and a file is there. */
  function Reopened(d: Disposition, held: string): (r: string) {
    match d
    case OpenAlways => held
    case CreateAlways => []
  }

  /** Writing one piece, closing the file, renaming it and opening the path again. */
  function Rotate(g: Log, piece: string, m: Move): (r: Log) {
    var w := Write(g, piece).(flag := Online);
    match m
    case Moved => w.(closed := w.closed + [w.live], live := [], size := 0)
    case NotFound => w.(closed := w.closed + [w.live], live := [])
    case Failed => w.(disposition := OpenAlways, live := Reopened(OpenAlways, w.live))
  }

  /** The loop that looks for line ends from index `i` on, when `address` is `a`
      cells into the buffer. It tests `i` against the cells that are left. */
  function Scan(g: Log, chunk: string, i: nat, a: nat, moves: Moves): (r: Scanned)
    requires a <= |chunk|
    ensures a <= r.address <= |chunk|
    decreases |chunk| - i
  {
    if i >= |chunk| - a then Scanned(g, a)
    else if chunk[i] != NEWLINE then Scan(g, chunk, i + 1, a, moves)
    else Scan(Rotate(g, chunk[a..a + i + 1], moves(i)), chunk, i + 2, a + i + 1, moves)
  }

  predicate Due(g: Log, n: nat) {
    g.flag == Asap || (g.limit != 0 && g.size + n >= g.limit)
  }

  /** After the loop: the counter of an empty file takes the last value of `out`,
      which a byte-order mark would have set, and the rest is written. */
  function Finish(g: Log, rest: string): (r: Log) {
    var c := if g.size == 0 then g.(size := g.out) else g;
    if rest == [] then c else Write(c, rest)
  }

  function Feed(g: Log, chunk: string, moves: Moves): (r: Log) {
    if Due(g, |chunk|) then
      var s := Scan(g, chunk, 0, 0, moves);
      Finish(s.log, chunk[s.address..])
    else
      Finish(g, chunk)
  }

  /** What other threads do to the flag between two reads. */
  datatype Request = Nothing | Rotation | Stop

  /** A request for a rotation counts only while the flag is Online. */
  function Requested(g: Log, r: Request): (h: Log) {
    match r
    case Nothing => g
    case Rotation => if g.flag == Online then g.(flag := Asap) else g
    case Stop => g.(flag := Offline)
  }

  /** One turn of the thread: what others did, then a read that delivers `chunk`. */
  datatype Turn = Turn(request: Request, chunk: string, moves: Moves)

  function Step(g: Log, t: Turn): (r: Log) {
    Feed(Requested(g, t.request), t.chunk, t.moves)
  }

  function Run(g: Log, turns: seq<Turn>): (r: Log) {
    if turns == [] then g else Step(Run(g, turns[..|turns| - 1]), turns[|turns| - 1])
  }

  function Received(turns: seq<Turn>): (r: string) {
    if turns == [] then [] else Received(turns[..|turns| - 1]) + turns[|turns| - 1].chunk
  }

  // ----- no byte is lost

  lemma ConcatSnoc(files: seq<string>, f: string)
    ensures Concat(files + [f]) == Concat(files) + f
  {
    assert (files + [f])[..|files|] == files;
  }

  /** A rotation adds its piece to the text, whatever the rename answers; in
      particular a file that could not be renamed is not truncated. */
  lemma RotateText(g: Log, piece: string, m: Move)
    ensures Text(Rotate(g, piece, m)) == Text(g) + piece
  {
    ConcatSnoc(g.closed, g.live + piece);
    assert Concat(g.closed) + (g.live + piece) == Text(g) + piece;
    assert Text(g) + piece + [] == Text(g) + piece;
  }

  lemma {:induction false} ScanText(g: Log, chunk: string, i: nat, a: nat, moves: Moves)
    requires a <= |chunk|
    ensures var s := Scan(g, chunk, i, a, moves);
            Text(s.log) + chunk[s.address..] == Text(g) + chunk[a..]
    decreases |chunk| - i
  {
    if i >= |chunk| - a {
    } else if chunk[i] != NEWLINE {
      ScanText(g, chunk, i + 1, a, moves);
    } else {
      var piece := chunk[a..a + i + 1];
      RotateText(g, piece, moves(i));
      ScanText(Rotate(g, piece, moves(i)), chunk, i + 2, a + i + 1, moves);
      assert chunk[a..] == piece + chunk[a + i + 1..];
      assert Text(g) + piece + chunk[a + i + 1..] == Text(g) + (piece + chunk[a + i + 1..]);
    }
  }

  lemma FinishText(g: Log, rest: string)
    ensures Text(Finish(g, rest)) == Text(g) + rest
  {
    assert Concat(g.closed) + (g.live + rest) == Concat(g.closed) + g.live + rest;
  }

  /** One read: the files gain exactly the bytes that were read. */
  lemma FeedText(g: Log, chunk: string, moves: Moves)
    ensures Text(Feed(g, chunk, moves)) == Text(g) + chunk
  {
    if Due(g, |chunk|) {
      var s := Scan(g, chunk, 0, 0, moves);
      ScanText(g, chunk, 0, 0, moves);
      FinishText(s.log, chunk[s.address..]);
      assert chunk[0..] == chunk;
    } else {
      FinishText(g, chunk);
    }
  }

  /** Any number of reads, any line ends, any answers: the files, one after the
      other, hold what was there at the start followed by what was read. */
  lemma {:induction false} BytesConserved(g: Log, turns: seq<Turn>)
    ensures Text(Run(g, turns)) == Text(g) + Received(turns)
  {
    if turns != [] {
      var n := |turns| - 1;
      BytesConserved(g, turns[..n]);
      var before := Run(g, turns[..n]);
      var t := turns[n];
      FeedText(Requested(before, t.request), t.chunk, t.moves);
    }
  }

  /** Closed files never change: a run only adds files after them. */
  lemma {:induction false} ScanCloses(g: Log, chunk: string, i: nat, a: nat, moves: Moves)
    requires a <= |chunk|
    ensures g.closed <= Scan(g, chunk, i, a, moves).log.closed
    decreases |chunk| - i
  {
    if i >= |chunk| - a {
    } else if chunk[i] != NEWLINE {
      ScanCloses(g, chunk, i + 1, a, moves);
    } else {
      ScanCloses(Rotate(g, chunk[a..a + i + 1], moves(i)), chunk, i + 2, a + i + 1, moves);
    }
  }

  lemma {:induction false} ClosedFilesStay(g: Log, turns: seq<Turn>)
    ensures g.closed <= Run(g, turns).closed
  {
    if turns != [] {
      var n := |turns| - 1;
      ClosedFilesStay(g, turns[..n]);
      var t := turns[n];
      var before := Run(g, turns[..n]);
      ScanCloses(Requested(before, t.request), t.chunk, 0, 0, t.moves);
    }
  }

  // ----- where a read is cut

  predicate FirstNewline(s: string, p: nat) {
    p < |s| && s[p] == NEWLINE && forall k :: 0 <= k < p ==> s[k] != NEWLINE
  }

  lemma {:induction false} ScanSkips(g: Log, chunk: string, i: nat, p: nat, a: nat, moves: Moves)
    requires a <= |chunk| && i <= p <= |chunk| - a
    requires forall k :: i <= k < p ==> chunk[k] != NEWLINE
    ensures Scan(g, chunk, i, a, moves) == Scan(g, chunk, p, a, moves)
    decreases p - i
  {
    if i < p {
      ScanSkips(g, chunk, i + 1, p, a, moves);
    }
  }

  /** The loop comes to the first line end and cuts there. */
  lemma FirstCut(g: Log, chunk: string, p: nat, moves: Moves)
    requires FirstNewline(chunk, p)
    ensures Scan(g, chunk, 0, 0, moves)
            == Scan(Rotate(g, chunk[..p + 1], moves(p)), chunk, p + 2, p + 1, moves)
  {
    ScanSkips(g, chunk, 0, p, 0, moves);
    assert chunk[0..p + 1] == chunk[..p + 1];
  }

  /** The first file a read closes ends at the first line end of what was read. */
  lemma FirstFileEndsALine(g: Log, chunk: string, p: nat, moves: Moves)
    requires Due(g, |chunk|) && FirstNewline(chunk, p) && moves(p) != Failed
    ensures g.closed + [g.live + chunk[..p + 1]] <= Feed(g, chunk, moves).closed
  {
    FirstCut(g, chunk, p, moves);
    ScanCloses(Rotate(g, chunk[..p + 1], moves(p)), chunk, p + 2, p + 1, moves);
  }

  /** A read that finds no line end rotates nothing, and a request stays pending. */
  lemma NoLineEndNoRotation(g: Log, chunk: string, moves: Moves)
    requires NEWLINE !in chunk
    ensures Feed(g, chunk, moves) == Finish(g, chunk)
    ensures Feed(g, chunk, moves).flag == g.flag
  {
    ScanSkips(g, chunk, 0, |chunk|, 0, moves);
  }

  /** The indices of the line ends at which the loop cuts. */
  function Cuts(chunk: string, i: nat, a: nat): (r: seq<nat>)
    requires a <= |chunk|
    decreases |chunk| - i
  {
    if i >= |chunk| - a then []
    else if chunk[i] != NEWLINE then Cuts(chunk, i + 1, a)
    else [i] + Cuts(chunk, i + 2, a + i + 1)
  }

  /** How many of some cuts end in a rename that did not fail. */
  function Succeeding(cuts: seq<nat>, moves: Moves): (r: nat) {
    if cuts == [] then 0
    else (if moves(cuts[0]) == Failed then 0 else 1) + Succeeding(cuts[1..], moves)
  }

  lemma {:induction false} CutsExactly(chunk: string, i: nat, a: nat)
    requires a <= |chunk|
    ensures Cuts(chunk, i, a) != [] <==> exists q :: i <= q < |chunk| - a && chunk[q] == NEWLINE
    decreases |chunk| - i
  {
    if i < |chunk| - a && chunk[i] != NEWLINE {
      CutsExactly(chunk, i + 1, a);
    }
  }

  /** Each cut closes one file, but for those whose rename fails: the file that is
      open then stays open and takes what follows. */
  lemma {:induction false} CutsCloseFiles(g: Log, chunk: string, i: nat, a: nat, moves: Moves)
    requires a <= |chunk|
    ensures |Scan(g, chunk, i, a, moves).log.closed| == |g.closed| + Succeeding(Cuts(chunk, i, a), moves)
    decreases |chunk| - i
  {
    if i >= |chunk| - a {
    } else if chunk[i] != NEWLINE {
      CutsCloseFiles(g, chunk, i + 1, a, moves);
    } else {
      CutsCloseFiles(Rotate(g, chunk[a..a + i + 1], moves(i)), chunk, i + 2, a + i + 1, moves);
      assert Cuts(chunk, i, a)[1..] == Cuts(chunk, i + 2, a + i + 1);
    }
  }

  lemma {:induction false} CutsSkip(chunk: string, i: nat, p: nat, a: nat)
    requires a <= |chunk| && i <= p <= |chunk| - a
    requires forall k :: i <= k < p ==> chunk[k] != NEWLINE
    ensures Cuts(chunk, i, a) == Cuts(chunk, p, a)
    decreases p - i
  {
    if i < p {
      CutsSkip(chunk, i + 1, p, a);
    }
  }

  lemma {:induction false} AllSucceed(cuts: seq<nat>, moves: Moves)
    requires forall k :: moves(k) != Failed
    ensures Succeeding(cuts, moves) == |cuts|
  {
    if cuts != [] {
      AllSucceed(cuts[1..], moves);
    }
  }

  /** A due read whose first line end is at index p is cut a second time exactly
      when another line end has an index in [p + 2, n - p - 1): the loop goes on
      from p + 2 but its bound has shrunk by p + 1. It closes as many files as there
      are cuts whose rename does not fail. */
  lemma SecondRotationExactlyWhen(g: Log, chunk: string, p: nat, moves: Moves)
    requires Due(g, |chunk|) && FirstNewline(chunk, p)
    ensures var closed, cuts := Feed(g, chunk, moves).closed, Cuts(chunk, 0, 0);
            && (|cuts| > 1 <==> exists q :: p + 2 <= q < |chunk| - (p + 1) && chunk[q] == NEWLINE)
            && |closed| == |g.closed| + Succeeding(cuts, moves)
            && ((forall k :: moves(k) != Failed) ==> |closed| == |g.closed| + |cuts|)
  {
    CutsCloseFiles(g, chunk, 0, 0, moves);
    CutsSkip(chunk, 0, p, 0);
    CutsExactly(chunk, p + 2, p + 1);
    if forall k :: moves(k) != Failed {
      AllSucceed(Cuts(chunk, 0, 0), moves);
    }
  }

  /** The second cut: a line end found at index q is where the loop looks, but
      `address` has moved by p + 1, so the file is cut p + 1 cells further on. The
      piece is a file of its own unless the first rename failed, and is closed
      unless the second fails. */
  lemma SecondCut(g: Log, chunk: string, p: nat, q: nat, moves: Moves)
    requires Due(g, |chunk|) && FirstNewline(chunk, p)
    requires p + 2 <= q < |chunk| - (p + 1) && chunk[q] == NEWLINE
    requires forall k :: p + 2 <= k < q ==> chunk[k] != NEWLINE
    ensures var one := Rotate(g, chunk[..p + 1], moves(p));
            Scan(g, chunk, 0, 0, moves)
            == Scan(Rotate(one, chunk[p + 1..p + q + 2], moves(q)), chunk, q + 2, p + q + 2, moves)
    ensures moves(q) != Failed ==>
              g.closed + (if moves(p) != Failed then [g.live + chunk[..p + 1], chunk[p + 1..p + q + 2]]
                          else [g.live + chunk[..p + q + 2]])
              <= Feed(g, chunk, moves).closed
    ensures chunk[p + 1..p + q + 2][q] == NEWLINE <==> chunk[p + 1 + q] == NEWLINE
  {
    FirstCut(g, chunk, p, moves);
    var one := Rotate(g, chunk[..p + 1], moves(p));
    SecondPiece(one, chunk, p, q, moves);
    if moves(p) != Failed {
      assert g.closed + [g.live + chunk[..p + 1], chunk[p + 1..p + q + 2]]
          == g.closed + [g.live + chunk[..p + 1]] + [chunk[p + 1..p + q + 2]];
    } else {
      assert one.live + chunk[p + 1..p + q + 2] == g.live + chunk[..p + q + 2];
    }
  }

  lemma SecondPiece(g: Log, chunk: string, p: nat, q: nat, moves: Moves)
    requires p + 2 <= q < |chunk| - (p + 1) && chunk[q] == NEWLINE
    requires forall k :: p + 2 <= k < q ==> chunk[k] != NEWLINE
    ensures Scan(g, chunk, p + 2, p + 1, moves)
            == Scan(Rotate(g, chunk[p + 1..p + q + 2], moves(q)), chunk, q + 2, p + q + 2, moves)
    ensures moves(q) != Failed && g.live == [] ==>
              g.closed + [chunk[p + 1..p + q + 2]] <= Scan(g, chunk, p + 2, p + 1, moves).log.closed
    ensures moves(q) != Failed ==>
              g.closed + [g.live + chunk[p + 1..p + q + 2]] <= Scan(g, chunk, p + 2, p + 1, moves).log.closed
  {
    hide Scan, Rotate;
    ScanSkips(g, chunk, p + 2, q, p + 1, moves);
    var piece := chunk[p + 1..p + 1 + q + 1];
    ScanCuts(g, chunk, q, p + 1, moves);
    RotateCloses(g, piece, moves(q));
    ScanCloses(Rotate(g, piece, moves(q)), chunk, q + 2, p + q + 2, moves);
    assert [] + piece == piece;
  }

  lemma ScanCuts(g: Log, chunk: string, i: nat, a: nat, moves: Moves)
    requires i + a < |chunk| && chunk[i] == NEWLINE
    ensures Scan(g, chunk, i, a, moves)
            == Scan(Rotate(g, chunk[a..a + i + 1], moves(i)), chunk, i + 2, a + i + 1, moves)
  {
  }

  lemma RotateCloses(g: Log, piece: string, m: Move)
    ensures m != Failed ==> Rotate(g, piece, m).closed == g.closed + [g.live + piece]
  {
  }

  /** What the buffer must hold for every file closed to end at a line end: the loop
      finds one at index `i`, but cuts `a` cells further on. A cut whose rename
      fails closes nothing. */
  predicate Aligned(chunk: string, i: nat, a: nat, moves: Moves)
    requires a <= |chunk|
    decreases |chunk| - i
  {
    if i >= |chunk| - a then true
    else if chunk[i] != NEWLINE then Aligned(chunk, i + 1, a, moves)
    else (moves(i) == Failed || chunk[a + i] == NEWLINE) && Aligned(chunk, i + 2, a + i + 1, moves)
  }

  predicate EndsALine(s: string) {
    s != [] && s[|s| - 1] == NEWLINE
  }

  predicate AllEndALine(files: seq<string>) {
    forall k :: 0 <= k < |files| ==> EndsALine(files[k])
  }

  lemma AllEndALineFrom(closed: seq<string>, n: nat)
    requires n < |closed|
    ensures AllEndALine(closed[n..]) <==> EndsALine(closed[n]) && AllEndALine(closed[n + 1..])
  {
    assert closed[n..] == [closed[n]] + closed[n + 1..];
    var tail := closed[n + 1..];
    assert forall k :: 0 <= k < |tail| ==> tail[k] == closed[n..][k + 1];
  }

  lemma {:induction false} ScanEndsLines(g: Log, chunk: string, i: nat, a: nat, moves: Moves)
    requires a <= |chunk|
    ensures g.closed <= Scan(g, chunk, i, a, moves).log.closed
    ensures AllEndALine(Scan(g, chunk, i, a, moves).log.closed[|g.closed|..]) <==> Aligned(chunk, i, a, moves)
    decreases |chunk| - i
  {
    if i >= |chunk| - a {
    } else if chunk[i] != NEWLINE {
      ScanEndsLines(g, chunk, i + 1, a, moves);
    } else {
      var piece := chunk[a..a + i + 1];
      var h := Rotate(g, piece, moves(i));
      ScanEndsLines(h, chunk, i + 2, a + i + 1, moves);
      if moves(i) != Failed {
        var closed := Scan(h, chunk, i + 2, a + i + 1, moves).log.closed;
        assert closed[|g.closed|] == h.closed[|g.closed|] == g.live + piece;
        AllEndALineFrom(closed, |g.closed|);
      }
    }
  }

  /** The files a read closes all end at a line end exactly when no rotation is due
      or the buffer is aligned, whatever the renames answer. */
  lemma FilesEndLinesExactlyWhen(g: Log, chunk: string, moves: Moves)
    ensures g.closed <= Feed(g, chunk, moves).closed
    ensures AllEndALine(Feed(g, chunk, moves).closed[|g.closed|..])
            <==> !Due(g, |chunk|) || Aligned(chunk, 0, 0, moves)
  {
    hide Scan, Aligned;
    ScanEndsLines(g, chunk, 0, 0, moves);
  }

  const SAMPLE: Log := Log([], "", 0, 0, Asap, 0, OpenAlways)

  function AlwaysMoved(i: int): (m: Move) { Moved }

  /** "Every rotated file ends at a line end" is false: reading "a\nb\nccccc" closes
      "a\n" and then "b\ncc". */
  lemma RotatedInsideALine()
    ensures Feed(SAMPLE, "a\nb\nccccc", AlwaysMoved).closed == ["a\n", "b\ncc"]
  {
    var chunk := "a\nb\nccccc";
    FirstCut(SAMPLE, chunk, 1, AlwaysMoved);
    assert chunk[..2] == "a\n" && chunk[2..6] == "b\ncc";
    assert SAMPLE.live + "a\n" == "a\n";
    var one := Rotate(SAMPLE, "a\n", Moved);
    assert Scan(one, chunk, 3, 2, AlwaysMoved)
        == Scan(Rotate(one, "b\ncc", Moved), chunk, 5, 6, AlwaysMoved);
    assert one.live + "b\ncc" == "b\ncc";
    assert ["a\n"] + ["b\ncc"] == ["a\n", "b\ncc"];
  }

  /** When the first line takes up at least half of what was read there is one cut.
      Unless the rename fails, what follows the line end starts the new file; when
      it fails, everything goes on in the old one. */
  lemma LongFirstLine(g: Log, chunk: string, p: nat, moves: Moves)
    requires Due(g, |chunk|) && FirstNewline(chunk, p)
    requires 2 * (p + 1) >= |chunk| - 1
    ensures var r := Feed(g, chunk, moves);
            if moves(p) != Failed then r.closed == g.closed + [g.live + chunk[..p + 1]] && r.live == chunk[p + 1..]
            else r.closed == g.closed && r.live == g.live + chunk
  {
    FirstCut(g, chunk, p, moves);
    assert g.live + chunk[..p + 1] + chunk[p + 1..] == g.live + chunk;
  }

  // ----- the size counter and the limit

  /** The counter never falls behind the file, and `out` is what was last written. */
  predicate Counts(g: Log) {
    (g.limit != 0 ==> g.size >= |g.live|) && g.out >= 0
  }

  lemma {:induction false} ScanCounts(g: Log, chunk: string, i: nat, a: nat, moves: Moves)
    requires a <= |chunk| && Counts(g)
    ensures var s := Scan(g, chunk, i, a, moves); Counts(s.log) && s.log.limit == g.limit
    decreases |chunk| - i
  {
    if i >= |chunk| - a {
    } else if chunk[i] != NEWLINE {
      ScanCounts(g, chunk, i + 1, a, moves);
    } else {
      ScanCounts(Rotate(g, chunk[a..a + i + 1], moves(i)), chunk, i + 2, a + i + 1, moves);
    }
  }

  /** A read keeps this, so a rotation is never due later than the limit says. */
  lemma FeedCounts(g: Log, chunk: string, moves: Moves)
    requires Counts(g)
    ensures Counts(Feed(g, chunk, moves)) && Feed(g, chunk, moves).limit == g.limit
  {
    ScanCounts(g, chunk, 0, 0, moves);
  }

  /** What a cut leaves in the counter, the open file and `out`. */
  predicate AfterCut(g: Log, r: Log, i: nat, m: Move) {
    && r.out == i + 1
    && (m == Moved ==> r.size == 0 && r.live == [])
    && (m == NotFound ==> r.live == [] && (g.size >= 0 ==> r.size >= i + 1))
  }

  lemma {:induction false} ScanCounter(g: Log, chunk: string, i: nat, a: nat, moves: Moves)
    requires a <= |chunk|
    ensures var r, cuts := Scan(g, chunk, i, a, moves).log, Cuts(chunk, i, a);
            if cuts == [] then r == g else AfterCut(g, r, cuts[|cuts| - 1], moves(cuts[|cuts| - 1]))
    decreases |chunk| - i
  {
    if i >= |chunk| - a {
    } else if chunk[i] != NEWLINE {
      ScanCounter(g, chunk, i + 1, a, moves);
    } else {
      var h := Rotate(g, chunk[a..a + i + 1], moves(i));
      var cuts, rest := Cuts(chunk, i, a), Cuts(chunk, i + 2, a + i + 1);
      ScanCounter(h, chunk, i + 2, a + i + 1, moves);
      assert cuts == [i] + rest;
      assert AfterCut(g, h, i, moves(i)) && (g.size >= 0 ==> h.size >= 0);
      assert rest != [] ==> cuts[|cuts| - 1] == rest[|rest| - 1];
    }
  }

  lemma {:induction false} FailuresKeepCounter(g: Log, chunk: string, i: nat, a: nat, moves: Moves)
    requires a <= |chunk|
    requires forall c :: c in Cuts(chunk, i, a) ==> moves(c) == Failed
    ensures var r := Scan(g, chunk, i, a, moves).log;
            r.size - |r.live| == g.size - |g.live| && r.size >= g.size + |Cuts(chunk, i, a)|
    decreases |chunk| - i
  {
    if i >= |chunk| - a {
    } else if chunk[i] != NEWLINE {
      FailuresKeepCounter(g, chunk, i + 1, a, moves);
    } else {
      assert Cuts(chunk, i, a) == [i] + Cuts(chunk, i + 2, a + i + 1);
      FailuresKeepCounter(Rotate(g, chunk[a..a + i + 1], moves(i)), chunk, i + 2, a + i + 1, moves);
    }
  }

  /** The counter is not the file's length. When the last rename of a read moved the
      file, the counter starts from the length of the piece that went to the file
      before, since `out` still holds it; when it found no file, the counter keeps
      at least that much; when all fail, nothing changes. */
  lemma CounterRunsAhead(g: Log, chunk: string, moves: Moves)
    requires Due(g, |chunk|) && NEWLINE in chunk && g.size >= 0
    ensures var r, cuts := Feed(g, chunk, moves), Cuts(chunk, 0, 0);
            && cuts != []
            && var last := cuts[|cuts| - 1];
            && (moves(last) == Moved ==> r.size == |r.live| + last + 1)
            && (moves(last) == NotFound ==> r.size >= |r.live| + last + 1)
            && ((forall c :: c in cuts ==> moves(c) == Failed) ==> r.size - |r.live| == g.size - |g.live|)
  {
    hide Scan;
    ScanCounter(g, chunk, 0, 0, moves);
    CutsExactly(chunk, 0, 0);
    if forall c :: c in Cuts(chunk, 0, 0) ==> moves(c) == Failed {
      FailuresKeepCounter(g, chunk, 0, 0, moves);
    }
  }

  /** Without a rotation the distance between counter and length is kept, unless the
      counter was 0: then it grows by whatever `out` held. */
  lemma CounterWithoutRotation(g: Log, chunk: string, moves: Moves)
    requires !Due(g, |chunk|) || NEWLINE !in chunk
    ensures var r := Feed(g, chunk, moves);
            r.size - |r.live| == g.size - |g.live| + if g.size == 0 then g.out else 0
  {
    if Due(g, |chunk|) {
      NoLineEndNoRotation(g, chunk, moves);
    }
  }

  /** Past the limit the open file holds no line end: it would have been cut there. */
  ghost predicate Bounded(g: Log) {
    forall k :: 0 <= k < |g.live| && g.live[k] == NEWLINE ==> k < g.limit - 1 || k < BUFFER_SIZE - 1
  }

  lemma FirstNewlineExists(s: string) returns (p: nat)
    requires NEWLINE in s
    ensures FirstNewline(s, p)
  {
    p := 0;
    while s[p] != NEWLINE
      invariant p < |s| && forall k :: 0 <= k < p ==> s[k] != NEWLINE
      invariant exists q :: p <= q < |s| && s[q] == NEWLINE
      decreases |s| - p
    {
      p := p + 1;
    }
  }

  lemma {:induction false} ScanEmpties(g: Log, chunk: string, i: nat, a: nat, moves: Moves)
    requires a <= |chunk| && g.live == []
    requires forall k :: moves(k) != Failed
    ensures Scan(g, chunk, i, a, moves).log.live == []
    decreases |chunk| - i
  {
    if i >= |chunk| - a {
    } else if chunk[i] != NEWLINE {
      ScanEmpties(g, chunk, i + 1, a, moves);
    } else {
      ScanEmpties(Rotate(g, chunk[a..a + i + 1], moves(i)), chunk, i + 2, a + i + 1, moves);
    }
  }

  lemma FeedBounded(g: Log, chunk: string, moves: Moves)
    requires Counts(g) && Bounded(g) && g.limit != 0
    requires |chunk| <= BUFFER_SIZE
    requires forall k :: moves(k) != Failed
    ensures Bounded(Feed(g, chunk, moves))
  {
    var r := Feed(g, chunk, moves);
    if !Due(g, |chunk|) {
      assert |r.live| < g.limit;
    } else if NEWLINE !in chunk {
      NoLineEndNoRotation(g, chunk, moves);
      assert r.live == g.live + chunk;
      forall k | 0 <= k < |r.live| && r.live[k] == NEWLINE ensures k < g.limit - 1 || k < BUFFER_SIZE - 1 {
        assert r.live[k] == (g.live + chunk)[k];
      }
    } else {
      var p := FirstNewlineExists(chunk);
      FirstCut(g, chunk, p, moves);
      ScanEmpties(Rotate(g, chunk[..p + 1], moves(p)), chunk, p + 2, p + 1, moves);
      ScanCounts(g, chunk, 0, 0, moves);
      var s := Scan(g, chunk, 0, 0, moves);
      assert s.address >= p + 1;
      assert |r.live| < BUFFER_SIZE;
    }
  }

  /** Over any run with a limit, whenever no rename fails for good: no line end of
      the open file lies at or past offset limit - 1, or the buffer's last cell when
      that is further on. */
  lemma {:induction false} LiveFileBounded(g: Log, turns: seq<Turn>)
    requires Counts(g) && Bounded(g) && g.limit != 0
    requires forall t, k :: t in turns ==> t.moves(k) != Failed
    requires forall t :: t in turns ==> |t.chunk| <= BUFFER_SIZE
    ensures var r := Run(g, turns); Counts(r) && Bounded(r) && r.limit == g.limit
  {
    if turns != [] {
      var n := |turns| - 1;
      LiveFileBounded(g, turns[..n]);
      var t := turns[n];
      var before := Run(g, turns[..n]);
      var asked := Requested(before, t.request);
      FeedCounts(asked, t.chunk, t.moves);
      FeedBounded(asked, t.chunk, t.moves);
    }
  }

  /** The flag is cleared by a read that cuts, before the rename is tried. */
  lemma {:induction false} ScanFlag(g: Log, chunk: string, i: nat, a: nat, moves: Moves)
    requires a <= |chunk|
    ensures Scan(g, chunk, i, a, moves).log.flag
            == if Cuts(chunk, i, a) != [] then Online else g.flag
    decreases |chunk| - i
  {
    if i >= |chunk| - a {
    } else if chunk[i] != NEWLINE {
      ScanFlag(g, chunk, i + 1, a, moves);
    } else {
      ScanFlag(Rotate(g, chunk[a..a + i + 1], moves(i)), chunk, i + 2, a + i + 1, moves);
    }
  }

  /** A request is taken by the first read that holds a line end, and by no other. */
  lemma RequestTakenExactlyWhen(g: Log, chunk: string, moves: Moves)
    requires g.flag == Asap
    ensures Feed(g, chunk, moves).flag == Online <==> NEWLINE in chunk
    ensures Feed(g, chunk, moves).flag == Asap <==> NEWLINE !in chunk
  {
    ScanFlag(g, chunk, 0, 0, moves);
    CutsExactly(chunk, 0, 0);
  }

  lemma {:induction false} SomeSucceed(cuts: seq<nat>, moves: Moves)
    ensures Succeeding(cuts, moves) > 0 <==> exists c :: c in cuts && moves(c) != Failed
  {
    if cuts != [] {
      SomeSucceed(cuts[1..], moves);
      assert cuts == [cuts[0]] + cuts[1..];
    }
  }

  /** A read without a request, and with no limit or below it, rotates nothing,
      whatever it holds: everything goes to the open file. */
  lemma BelowTheLimit(g: Log, chunk: string, moves: Moves)
    requires g.flag != Asap && (g.limit == 0 || g.size + |chunk| < g.limit)
    ensures var r := Feed(g, chunk, moves);
            r.closed == g.closed && r.live == g.live + chunk && r.flag == g.flag && r.disposition == g.disposition
  {
    assert g.live + [] == g.live;
  }

  /** A request counts while the flag is Online, and while one is pending; once
      the service was stopped it changes nothing. */
  lemma RequestExactly(g: Log, chunk: string, moves: Moves)
    ensures Requested(g, Rotation).flag == Asap <==> g.flag != Offline
    ensures Requested(g, Rotation).(flag := g.flag) == g && Requested(g, Nothing) == g
    ensures g.flag == Offline ==> Step(g, Turn(Rotation, chunk, moves)) == Step(g, Turn(Nothing, chunk, moves))
    ensures Requested(g, Stop) == g.(flag := Offline)
  {
    hide Feed;
  }

  /** A read closes a file, which is what is requested, if and only if there is a
      request or a limit that the read reaches, and some rename of the read does
      not fail. */
  lemma RequestServedExactlyWhen(g: Log, chunk: string, moves: Moves)
    ensures |Feed(g, chunk, moves).closed| > |g.closed| <==>
            && (g.flag == Asap || (g.limit != 0 && g.size + |chunk| >= g.limit))
            && exists c :: c in Cuts(chunk, 0, 0) && moves(c) != Failed
  {
    CutsCloseFiles(g, chunk, 0, 0, moves);
    SomeSucceed(Cuts(chunk, 0, 0), moves);
  }

  /** With renames that do not fail, a read closes a file if and only if there is
      a request or a limit that it reaches, and it holds a line end. */
  lemma RotatesExactlyWhen(g: Log, chunk: string, moves: Moves)
    requires forall k :: moves(k) != Failed
    ensures Feed(g, chunk, moves).closed != g.closed <==>
            (g.flag == Asap || (g.limit != 0 && g.size + |chunk| >= g.limit)) && NEWLINE in chunk
  {
    RequestServedExactlyWhen(g, chunk, moves);
    CutsExactly(chunk, 0, 0);
    ScanCloses(g, chunk, 0, 0, moves);
    var cuts := Cuts(chunk, 0, 0);
    assert cuts != [] ==> cuts[0] in cuts;
  }

  /** A request is lost when it is taken by a read all of whose renames fail: the
      flag is cleared, no file is closed, and everything went to the open file. */
  lemma RequestLostExactlyWhen(g: Log, chunk: string, moves: Moves)
    requires g.flag == Asap
    ensures (Feed(g, chunk, moves).flag == Online && Feed(g, chunk, moves).closed == g.closed) <==>
            NEWLINE in chunk && forall c :: c in Cuts(chunk, 0, 0) ==> moves(c) == Failed
    ensures (forall c :: c in Cuts(chunk, 0, 0) ==> moves(c) == Failed) ==> Feed(g, chunk, moves).live == g.live + chunk
  {
    RequestTakenExactlyWhen(g, chunk, moves);
    RequestServedExactlyWhen(g, chunk, moves);
    ScanCloses(g, chunk, 0, 0, moves);
    if forall c :: c in Cuts(chunk, 0, 0) ==> moves(c) == Failed {
      FailuresKeepFile(g, chunk, 0, 0, moves);
      assert chunk[0..] == chunk;
    }
  }

  /** While renames fail, the file stays open and takes everything. */
  lemma {:induction false} FailuresKeepFile(g: Log, chunk: string, i: nat, a: nat, moves: Moves)
    requires a <= |chunk|
    requires forall c :: c in Cuts(chunk, i, a) ==> moves(c) == Failed
    ensures var s := Scan(g, chunk, i, a, moves);
            s.log.closed == g.closed && s.log.live + chunk[s.address..] == g.live + chunk[a..]
    decreases |chunk| - i
  {
    if i >= |chunk| - a {
    } else if chunk[i] != NEWLINE {
      FailuresKeepFile(g, chunk, i + 1, a, moves);
    } else {
      assert Cuts(chunk, i, a) == [i] + Cuts(chunk, i + 2, a + i + 1);
      var piece := chunk[a..a + i + 1];
      FailuresKeepFile(Rotate(g, piece, moves(i)), chunk, i + 2, a + i + 1, moves);
      assert chunk[a..] == piece + chunk[a + i + 1..];
      assert g.live + piece + chunk[a + i + 1..] == g.live + (piece + chunk[a + i + 1..]);
    }
  }

  /** The bound of the open file fails with a rename that fails: a line end read
      when the file is past the limit is left in it. */
  lemma FailedRenameBreaksBound(g: Log, moves: Moves)
    requires g.limit != 0 && Counts(g) && |g.live| >= g.limit && |g.live| >= BUFFER_SIZE
    requires moves(0) == Failed
    ensures Due(g, 1) && !Bounded(Feed(g, [NEWLINE], moves))
  {
    var chunk, r := [NEWLINE], Feed(g, [NEWLINE], moves);
    assert Cuts(chunk, 0, 0) == [0];
    FailuresKeepFile(g, chunk, 0, 0, moves);
    assert chunk[0..] == chunk;
    assert r.live == g.live + chunk;
    assert r.live[|g.live|] == NEWLINE;
  }

  // ----- the thread's state

  class Logger {
    var closed: seq<string>
    var live: string
    var size: int
    var out: int
    var flag: Flag
    var limit: nat
    var disposition: Disposition

    ghost function Value(): (g: Log)
      reads this
    {
      Log(closed, live, size, out, flag, limit, disposition)
    }

    /** `found` says whether the size of the file could be asked for. When it could
        not, the limit is dropped and the counter holds what was in memory, as `out`
        does in any case. */
    constructor (existing: string, logLimit: nat, how: Disposition, found: bool, garbage: int, oldOut: nat)
      ensures Value() == Log([], existing, if found then |existing| else garbage, oldOut, Online,
                             if found then logLimit else 0, how)
      ensures Counts(Value()) && Text(Value()) == existing
    {
      closed, live := [], existing;
      out, flag, disposition := oldOut, Online, how;
      if found {
        size, limit := |existing|, logLimit;
      } else {
        size, limit := garbage, 0;
      }
    }

    /** What another thread does to the flag. */
    method Answer(r: Request)
      modifies this`flag
      ensures Value() == Requested(old(Value()), r)
    {
      match r
      case Nothing =>
      case Rotation =>
        if flag == Online {
          flag := Asap;
        }
      case Stop => flag := Offline;
    }

    method TryWrite(s: string)
      modifies this`live, this`size, this`out
      ensures Value() == Write(old(Value()), s)
    {
      live := live + s;
      out := |s|;
      size := size + out;
    }

    /** write_to_file: opening the path, at which a file is found or not. */
    method Open(present: bool)
      modifies this`live
      ensures live == if present then Reopened(disposition, old(live)) else []
    {
      if !present || disposition == CreateAlways {
        live := [];
      }
    }

    method RotateAt(piece: string, m: Move)
      modifies this
      ensures Value() == Rotate(old(Value()), piece, m)
    {
      TryWrite(piece);
      flag := Online;
      if m != Failed {
        closed := closed + [live];
      }
      if m == Moved {
        size := 0;
      } else if m == Failed {
        disposition := OpenAlways;
      }
      Open(m == Failed);
    }

    /** The body of the thread's loop, once `n` cells of the buffer were filled. */
    method HandleRead(buffer: array<char>, n: nat, moves: Moves)
      requires n <= buffer.Length
      modifies this
      ensures Value() == Feed(old(Value()), buffer[..n], moves)
      ensures Text(Value()) == old(Text(Value())) + buffer[..n]
    {
      ghost var chunk := buffer[..n];
      ghost var before := Value();
      FeedText(before, chunk, moves);
      var address, left := 0, n;
      if flag == Asap || (limit != 0 && size + left >= limit) {
        var i := 0;
        while i < left
          invariant 0 <= address <= n && left == n - address && 0 <= i
          invariant Scan(before, chunk, 0, 0, moves) == Scan(Value(), chunk, i, address, moves)
          decreases n - i
        {
          if buffer[i] == NEWLINE {
            var at := i;
            i := i + 1;
            assert chunk[address..address + i] == buffer[address..address + i];
            RotateAt(buffer[address..address + i], moves(at));
            address := address + i;
            left := left - i;
          }
          i := i + 1;
        }
      }
      if size == 0 {
        size := size + out;
      }
      if left != 0 {
        assert chunk[address..] == buffer[address..address + left];
        TryWrite(buffer[address..address + left]);
      }
    }
  }
}
