/** Reading a log backwards in chunks, and tailing it through a window. */
module LogReader {
  import opened Common
  import opened Lines

  /** Swaps the two ends inwards. */
  method ReverseInPlace(matched: seq<Text>) returns (r: seq<Text>)
    ensures r == Reverse(matched)
  {
    r := matched;
    var i, j := 0, |r| - 1;
    while i < j
      invariant 0 <= i <= j + 2 && i + j == |r| - 1 && |r| == |matched|
      invariant forall k :: 0 <= k < i || j < k < |r| ==> r[k] == matched[|r| - 1 - k]
      invariant forall k :: i <= k <= j ==> r[k] == matched[k]
    {
      r := r[i := r[j]][j := r[i]];
      i, j := i + 1, j - 1;
    }
    assert |Reverse(matched)| == |matched| by {
      if matched != [] { ReverseAt(matched, 0); }
    }
    forall k | 0 <= k < |matched|
      ensures r[k] == Reverse(matched)[k]
    {
      ReverseAt(matched, k);
    }
  }

  /** The last maxLines matching lines of the whole file, in file order.  An empty file has
      no lines to read, although splitting it yields one empty line. */
  function LastMatches(file: Text, matches: Text -> bool, maxLines: int): seq<Text> {
    if file == [] then [] else LastN(Filter(Split(file), matches), maxLines)
  }

  /** The state between chunks: the carried line and the lines already seen make up the
      lines of the file from the offset on. */
  ghost predicate Covers(file: Text, offset: nat, rem: Text, seen: seq<Text>)
    requires offset <= |file|
  {
    if offset > 0 then Split(file[offset..]) == [rem] + seen
    else file != [] ==> Split(file) == seen
  }

  /** The lines a chunk completes, in front of those already seen. */
  lemma ChunkLines(file: Text, from: nat, offset: nat, rem: Text, seen: seq<Text>)
    requires from < offset <= |file| && Covers(file, offset, rem, seen)
    ensures Split(file[from..]) == Split(file[from..offset] + rem) + seen
  {
    SplitChunk(file[from..offset], file[offset..]);
    assert file[from..] == file[from..offset] + file[offset..];
  }

  /** Stopping early at the limit gives the same newest matches as reading everything. */
  lemma StoppedEarly(file: Text, offset: nat, rem: Text, seen: seq<Text>, matches: Text -> bool, maxLines: int)
    requires 0 < offset <= |file| && Covers(file, offset, rem, seen)
    requires |Newest(seen, matches, maxLines)| >= maxLines
    ensures Newest(Split(file), matches, maxLines) == Newest(seen, matches, maxLines)
  {
    SplitJoin(file[..offset], file[offset..], NL);
    assert file[..offset] + file[offset..] == file;
    var la := Split(file[..offset]);
    var older := la[..|la| - 1] + [la[|la| - 1] + rem];
    assert Split(file) == older + seen;
    NewestFull(older, seen, matches, maxLines);
  }

  /** Reads the file backwards in chunks of at most chunkSize bytes; faults are the offsets
      at which a read fails. */
  method SearchFileLines(file: Text, chunkSize: nat, matches: Text -> bool, maxLines: int, faults: set<int>)
    returns (res: Result<seq<Text>>)
    requires chunkSize > 0
    ensures res.Ok? ==> res.value == LastMatches(file, matches, maxLines)
    ensures faults == {} ==> res.Ok?
  {
    hide Newest, Filter, Reverse, LastN;
    var matched: seq<Text> := [];
    var rem: Text := [];
    var offset := |file|;
    ghost var seen: seq<Text> := [];
    assert file[offset..] == [];
    NewestOfNone(matches, maxLines);
    while offset > 0 && |matched| < maxLines
      invariant 0 <= offset <= |file|
      invariant matched == Newest(seen, matches, maxLines)
      invariant Covers(file, offset, rem, seen)
      invariant file == [] ==> matched == []
      decreases offset
    {
      var readSize := chunkSize;
      if offset < readSize {
        readSize := offset;
      }
      var from := offset - readSize;
      if from in faults {
        return Err("read failed");
      }
      var buf := file[from..offset];
      ChunkLines(file, from, offset, rem, seen);
      offset := from;
      var data := buf + rem;
      var lines := Split(data);
      assert lines == [lines[0]] + lines[1..];
      if offset > 0 {
        rem := lines[0];
        lines := lines[1..];
      } else {
        rem := [];
        assert file[offset..] == file;
      }
      matched := CollectBackwards(lines, seen, matches, maxLines, matched);
      seen := lines + seen;
    }
    if file != [] {
      if offset > 0 {
        StoppedEarly(file, offset, rem, seen, matches, maxLines);
      }
      NewestIsReversedLast(Split(file), matches, maxLines);
    } else {
      ReverseOfNone();
    }
    matched := ReverseInPlace(matched);
    return Ok(matched);
  }

  lemma NewestOfNone(matches: Text -> bool, maxLines: int)
    ensures Newest([], matches, maxLines) == []
  {
  }

  lemma ReverseOfNone()
    ensures Reverse([]) == []
  {
  }

  /** The lines of a chunk from one on, and those after the chunk. */
  function LinesFrom(lines: seq<Text>, i: nat, later: seq<Text>): seq<Text>
    requires i <= |lines|
  {
    lines[i..] + later
  }

  lemma LinesFromParts(lines: seq<Text>, i: nat, later: seq<Text>)
    requires i <= |lines|
    ensures lines[..i] + LinesFrom(lines, i, later) == lines + later
    ensures i == |lines| ==> LinesFrom(lines, i, later) == later
    ensures i == 0 ==> LinesFrom(lines, i, later) == lines + later
    ensures i < |lines| ==> LinesFrom(lines, i, later) == [lines[i]] + LinesFrom(lines, i + 1, later)
  {
    if i < |lines| { assert lines[i..] == [lines[i]] + lines[i + 1..]; }
  }

  /** The inner loop: lines of one chunk from last to first, until the limit is reached. */
  method CollectBackwards(lines: seq<Text>, ghost later: seq<Text>, matches: Text -> bool, maxLines: int,
        found: seq<Text>)
    returns (matched: seq<Text>)
    requires found == Newest(later, matches, maxLines)
    ensures matched == Newest(lines + later, matches, maxLines)
  {
    hide Newest, LinesFrom;
    matched := found;
    var i := |lines| - 1;
    LinesFromParts(lines, |lines|, later);
    while i >= 0 && |matched| < maxLines
      invariant -1 <= i < |lines|
      invariant matched == Newest(LinesFrom(lines, i + 1, later), matches, maxLines)
      decreases i
    {
      LinesFromParts(lines, i, later);
      NewestCons(lines[i], LinesFrom(lines, i + 1, later), matches, maxLines);
      if matches(lines[i]) {
        matched := matched + [lines[i]];
      }
      i := i - 1;
    }
    LinesFromParts(lines, i + 1, later);
    if i >= 0 {
      NewestFull(lines[..i + 1], LinesFrom(lines, i + 1, later), matches, maxLines);
    }
  }

  lemma NewestCons(l: Text, ls: seq<Text>, matches: Text -> bool, maxLines: int)
    ensures Newest([l] + ls, matches, maxLines)
         == if |Newest(ls, matches, maxLines)| < maxLines && matches(l) then Newest(ls, matches, maxLines) + [l]
            else Newest(ls, matches, maxLines)
  {
    assert ([l] + ls)[1..] == ls;
  }

  /** The result does not depend on where chunks begin: it is the whole-file answer for every
      file exactly when the predicate rejects the empty line or nothing is asked for. */
  lemma WholeFileExactly(matches: Text -> bool, maxLines: int)
    ensures (forall file :: LastMatches(file, matches, maxLines) == LastN(Filter(Split(file), matches), maxLines))
       <==> !matches([]) || maxLines <= 0
  {
    assert Split([]) == [[]];
    var ls: seq<Text> := [[]];
    assert Filter(ls, matches) == if matches([]) then ls else [] by {
      assert ls[1..] == [];
    }
    assert LastMatches([], matches, maxLines) == [];
    if matches([]) && maxLines > 0 {
      assert LastN(Filter(Split([]), matches), maxLines) == ls;
    }
  }

  // ---------- tail ----------

  function DropTrailingEmpty(ls: seq<Text>): seq<Text> {
    if ls != [] && ls[|ls| - 1] == [] then ls[..|ls| - 1] else ls
  }

  /** Whole lines visible through a window that starts at the given offset: all of them, or
      one per newline in the window. */
  function WholeLines(file: Text, start: nat): nat
    requires start <= |file|
  {
    if start == 0 then |Split(file)| else Newlines(file[start..])
  }

  function Least(a: nat, b: nat): nat { if a < b then a else b }

  /** Up to one dropped trailing empty line, the last whole lines of the file. */
  method TailFileLines(file: Text, maxBytes: nat, maxLines: nat) returns (lines: seq<Text>)
    ensures var start := if |file| > maxBytes then |file| - maxBytes else 0;
      var n := Least(maxLines, WholeLines(file, start));
      n <= |Split(file)| && lines == DropTrailingEmpty(Split(file)[|Split(file)| - n..])
  {
    hide Split, WholeLines, DropTrailingEmpty;
    var start := 0;
    if |file| > maxBytes {
      start := |file| - maxBytes;
    }
    ghost var all, whole := Split(file), WholeLines(file, start);
    WindowLines(file, start);
    lines := Split(file[start..]);
    if start > 0 {
      lines := lines[1..];
    }
    assert lines == all[|all| - whole..];
    LastOfLast(all, whole, Least(maxLines, whole));
    lines := LastLines(lines, maxLines);
  }

  /** The last lines of the window, less one trailing empty line. */
  method LastLines(all: seq<Text>, maxLines: nat) returns (lines: seq<Text>)
    ensures lines == DropTrailingEmpty(all[|all| - Least(maxLines, |all|)..])
  {
    lines := all;
    if |lines| > maxLines {
      lines := lines[|lines| - maxLines..];
    }
    var n := |lines|;
    if n > 0 && lines[n - 1] == [] {
      lines := lines[..n - 1];
    }
  }

  lemma LastOfLast(all: seq<Text>, n: nat, k: nat)
    requires k <= n <= |all|
    ensures all[|all| - n..][n - k..] == all[|all| - k..]
  {
  }

  /** The window shows the last whole lines of the file behind its cut first line. */
  lemma WindowLines(file: Text, start: nat)
    requires start <= |file|
    ensures var all, seen := Split(file), Split(file[start..]); var n := WholeLines(file, start);
      n <= |all| && all[|all| - n..] == if start == 0 then seen else seen[1..]
  {
    var data := file[start..];
    SplitCount(data);
    if start > 0 {
      SplitJoin(file[..start], data, NL);
      assert file[..start] + data == file;
      SeamEnds(Split(file[..start]), Split(data));
    } else {
      assert data == file;
    }
    hide SplitAt, Newlines, Seam;
  }
}
