/** Byte-offset paging over one container's segments (api/log_service.go). */
module ChunkPaging {
  import opened Bytes
  import opened Lines
  import opened Seqs
  import opened Writer

  /** logChunk: one segment file of a container. */
  datatype Chunk = Chunk(container: Text, segment: Text, bytes: Text)

  /** The lines from a byte offset on; none past the end of the file. */
  function LinesAt(b: Text, pos: nat): seq<Text> {
    if pos > |b| then [] else Texts(LinesFrom(b, pos))
  }

  /** The lines from a position on, over the following chunks too. */
  function Rest(chunks: seq<Chunk>, idx: nat, pos: nat): seq<Text>
    decreases |chunks| - idx
  {
    if idx >= |chunks| then [] else LinesAt(chunks[idx].bytes, pos) + Rest(chunks, idx + 1, 0)
  }

  lemma LinesAtStep(b: Text, pos: nat)
    requires pos < |b|
    ensures LinesAt(b, pos) == [TrimEol(b[pos..LineEnd(b, pos)])] + LinesAt(b, LineEnd(b, pos))
  {
    hide LinesFrom, TrimEol;
    FirstLine(b, pos);
    var first, rest := Located(pos, TrimEol(b[pos..LineEnd(b, pos)])), LinesFrom(b, LineEnd(b, pos));
    assert Texts([first] + rest) == [first.text] + Texts(rest);
  }

  lemma LinesAtEnd(b: Text, pos: nat)
    requires pos >= |b|
    ensures LinesAt(b, pos) == []
  {
  }

  /** chunkReader: reads lines across chunks.  Its buffering is left out: `pos`
      is what position() computes, the offset after the last line returned. */
  class ChunkReader {
    const chunks: seq<Chunk>
    var idx: nat
    var pos: nat

    constructor (chunks: seq<Chunk>, idx: nat, pos: nat)
      requires idx < |chunks|
      ensures this.chunks == chunks && this.idx == idx && this.pos == pos
    {
      this.chunks, this.idx, this.pos := chunks, idx, pos;
    }

    ghost predicate Valid()
      reads this
    {
      idx < |chunks|
    }

    /** The next line, moving to the next chunk at each end of file. */
    method ReadLine() returns (line: Text, ok: bool)
      requires Valid()
      modifies this`idx, this`pos
      ensures Valid() && old(idx) <= idx
      ensures ok == (old(Rest(chunks, idx, pos)) != [])
      ensures ok ==> old(Rest(chunks, idx, pos)) == [line] + Rest(chunks, idx, pos)
      ensures !ok ==> Rest(chunks, idx, pos) == []
      ensures old(pos) <= |chunks[old(idx)].bytes| ==> pos <= |chunks[idx].bytes|
    {
      hide LinesAt, TrimEol;
      while true
        invariant Valid() && old(idx) <= idx && Rest(chunks, idx, pos) == old(Rest(chunks, idx, pos))
        invariant old(pos) <= |chunks[old(idx)].bytes| ==> pos <= |chunks[idx].bytes|
        decreases |chunks| - idx
      {
        var b := chunks[idx].bytes;
        if pos < |b| {
          LinesAtStep(b, pos);
          line := TrimEol(b[pos..LineEnd(b, pos)]);
          pos := LineEnd(b, pos);
          return line, true;
        }
        LinesAtEnd(b, pos);
        if idx + 1 >= |chunks| {
          return [], false;
        }
        idx, pos := idx + 1, 0;
      }
    }

    /** hasMoreAfterCurrent */
    method HasMoreAfterCurrent() returns (more: bool)
      requires Valid()
      ensures more <==> Rest(chunks, idx, pos) != [] || idx + 1 < |chunks|
    {
      if pos < |chunks[idx].bytes| {
        LinesAtStep(chunks[idx].bytes, pos);
        return true;
      }
      LinesAtEnd(chunks[idx].bytes, pos);
      more := idx + 1 < |chunks|;
    }
  }

  /** matchesTimeRange: an unparseable time always matches. */
  predicate Matches(stampOf: Text -> Option<Time>, start: Option<Time>, end: Option<Time>, line: Text) {
    match stampOf(line)
    case None => true
    case Some(t) => (start.Some? ==> start.value <= t) && (end.Some? ==> t <= end.value)
  }

  /** The matching lines from a position on. */
  function Remaining(stampOf: Text -> Option<Time>, start: Option<Time>, end: Option<Time>,
                     chunks: seq<Chunk>, idx: nat, pos: nat): seq<Text>
  {
    Filter(line => Matches(stampOf, start, end, line), Rest(chunks, idx, pos))
  }

  /** A line is shown unless it begins with a time before the start or after the
      end asked for. */
  lemma RemainingSpelledOut(stampOf: Text -> Option<Time>, start: Option<Time>, end: Option<Time>,
                            chunks: seq<Chunk>, idx: nat, pos: nat)
    ensures Remaining(stampOf, start, end, chunks, idx, pos)
         == Filter(line => || stampOf(line).None?
                           || ((start.None? || start.value <= stampOf(line).value)
                               && (end.None? || stampOf(line).value <= end.value)),
                   Rest(chunks, idx, pos))
  {
    hide Rest, Filter;
    FilterSame(line => Matches(stampOf, start, end, line),
               line => || stampOf(line).None?
                       || ((start.None? || start.value <= stampOf(line).value)
                           && (end.None? || stampOf(line).value <= end.value)),
               Rest(chunks, idx, pos));
  }

  /** The lines from a position on: those of its file after it, then those of the
      following files in turn. */
  lemma {:induction false} RestSpelledOut(chunks: seq<Chunk>, idx: nat, pos: nat)
    requires idx < |chunks| && pos <= |chunks[idx].bytes|
    ensures Rest(chunks, idx, pos)
         == Texts(LinesFrom(chunks[idx].bytes, pos))
            + Joined(Mapped((c: Chunk) => Texts(LinesFrom(c.bytes, 0)), chunks[idx + 1..]))
    decreases |chunks| - idx
  {
    hide LinesFrom, Texts;
    var linesOf := (c: Chunk) => Texts(LinesFrom(c.bytes, 0));
    if idx + 1 < |chunks| {
      RestSpelledOut(chunks, idx + 1, 0);
      var lists := Mapped(linesOf, chunks[idx + 1..]);
      assert lists[1..] == Mapped(linesOf, chunks[idx + 2..]);
      JoinedFirst(lists);
    } else {
      assert Rest(chunks, idx + 1, 0) == [];
    }
  }

  /** logsPageToken, before encoding. */
  datatype Cursor = Cursor(container: Text, segment: Text, offset: int)

  function CursorAt(chunks: seq<Chunk>, idx: nat, pos: nat): Cursor
    requires idx < |chunks|
  {
    Cursor(chunks[idx].container, chunks[idx].segment, pos)
  }

  /** The page loop: whatever is shown and whatever the cursor left behind can
      still reach is exactly what the starting position could reach. */
  method ReadPage(stampOf: Text -> Option<Time>, start: Option<Time>, end: Option<Time>,
                  chunks: seq<Chunk>, startChunk: nat, startOffset: nat, pageSize: nat)
    returns (lines: seq<Text>, next: Option<Cursor>, ghost lastChunk: nat, ghost lastOffset: nat)
    requires startChunk < |chunks| && 0 < pageSize
    ensures |lines| <= pageSize && startChunk <= lastChunk < |chunks|
    ensures Remaining(stampOf, start, end, chunks, startChunk, startOffset)
         == lines + Remaining(stampOf, start, end, chunks, lastChunk, lastOffset)
    ensures next.Some? ==> |lines| == pageSize && next.value == CursorAt(chunks, lastChunk, lastOffset)
    ensures next == None ==> Remaining(stampOf, start, end, chunks, lastChunk, lastOffset) == []
    ensures startOffset <= |chunks[startChunk].bytes| ==> lastOffset <= |chunks[lastChunk].bytes|
  {
    hide Matches, Rest, Filter;
    FilterEmpty(line => Matches(stampOf, start, end, line));
    var keep := line => Matches(stampOf, start, end, line);
    var reader := new ChunkReader(chunks, startChunk, startOffset);
    lines, next := [], None;
    var chunk, offset := startChunk, startOffset;
    while |lines| < pageSize
      invariant reader.Valid() && reader.chunks == chunks && reader.idx >= startChunk && |lines| <= pageSize
      invariant chunk == reader.idx && offset == reader.pos
      invariant startOffset <= |chunks[startChunk].bytes| ==> reader.pos <= |chunks[reader.idx].bytes|
      invariant Filter(keep, Rest(chunks, startChunk, startOffset))
                == lines + Filter(keep, Rest(chunks, reader.idx, reader.pos))
      decreases |Rest(chunks, reader.idx, reader.pos)|
    {
      var line, ok := reader.ReadLine();
      if !ok {
        lastChunk, lastOffset := reader.idx, reader.pos;
        return;
      }
      chunk, offset := reader.idx, reader.pos;
      FilterAfter(keep, line, Rest(chunks, reader.idx, reader.pos), lines);
      if Matches(stampOf, start, end, line) {
        lines := lines + [line];
      }
    }
    lastChunk, lastOffset := chunk, offset;
    var more := reader.HasMoreAfterCurrent();
    if |lines| == pageSize && more {
      next := Some(CursorAt(chunks, chunk, offset));
    }
  }

  lemma FilterAfter<T>(keep: T -> bool, x: T, rest: seq<T>, done: seq<T>)
    ensures done + Filter(keep, [x] + rest) == (if keep(x) then done + [x] else done) + Filter(keep, rest)
  {
    hide Filter;
    FilterFirst(keep, x, rest);
    if keep(x) {
      Associate(done, [x], Filter(keep, rest));
    }
  }

  // ----- Scanning backward -----

  /** Newlines in `b` from `i` on. */
  function Newlines(b: Text, i: nat): nat
    requires i <= |b|
    decreases |b| - i
  {
    if i == |b| then 0 else (if b[i] == NL then 1 else 0) + Newlines(b, i + 1)
  }

  function LineCount(b: Text, pos: nat): nat
    requires pos <= |b|
  {
    |LinesFrom(b, pos)|
  }

  lemma {:induction false} NewlinesUpTo(b: Text, i: nat, e: nat)
    requires i <= e <= |b| && forall k :: i <= k < e ==> b[k] != NL
    ensures Newlines(b, i) == Newlines(b, e)
    decreases e - i
  {
    if i < e {
      NewlinesUpTo(b, i + 1, e);
    }
  }

  /** Lines are counted by their newlines, and the last may lack one. */
  lemma {:induction false} LinesByNewlines(b: Text, pos: nat)
    requires pos <= |b|
    ensures LineCount(b, pos) == Newlines(b, pos) + if pos < |b| then 1 - Terminated(b) else 0
    decreases |b| - pos
  {
    hide TrimEol;
    if pos < |b| {
      var e := LineEnd(b, pos);
      LinesByNewlines(b, e);
      NewlinesUpTo(b, pos, e - 1);
      assert e < |b| ==> b[e - 1] == NL;
      assert Newlines(b, e - 1) == (if b[e - 1] == NL then 1 else 0) + Newlines(b, e);
    }
  }

  /** One block of the scan, backward through b[lo..hi). */
  method ScanBlock(b: Text, lo: nat, hi: nat, need: nat, count: int, ghost terminated: nat)
    returns (count': int, at: Option<nat>)
    requires lo <= hi <= |b| && count == Newlines(b, hi) - terminated && count < need
    ensures at == None ==> count' == Newlines(b, lo) - terminated && count' < need
    ensures at.Some? ==> lo < at.value <= hi && b[at.value - 1] == NL && Newlines(b, at.value - 1) - terminated == need
  {
    count', at := count, None;
    var i := hi;
    while i > lo
      invariant lo <= i <= hi && count' == Newlines(b, i) - terminated && count' < need
    {
      i := i - 1;
      if b[i] == NL {
        count' := count' + 1;
        if count' == need {
          return count', Some(i + 1);
        }
      }
    }
  }

  /** scanBackwardInFile.  Blocks of any size give the same answer: the offset
      exactly `need` lines before `end`, if more than `need` lines are there;
      otherwise 0, and a count that leaves out the line beginning there. */
  method ScanBackward(file: Text, end: nat, need: nat, bufSize: nat) returns (offset: nat, found: nat, ok: bool)
    requires bufSize > 0
    ensures ok == (need == 0 || end <= |file|)
    ensures need == 0 || end == 0 ==> offset == 0 && found == 0
    ensures ok && 0 < need && 0 < end ==>
              var b := file[..end];
              if need < LineCount(b, 0) then
                found == need && 0 < offset < end && file[offset - 1] == NL && LineCount(b, offset) == need
              else offset == 0 && found == LineCount(b, 0) - 1
  {
    hide LineCount, Newlines;
    if need == 0 || end == 0 {
      return 0, 0, true;
    }
    if end > |file| {
      return 0, 0, false;
    }
    ghost var b := file[..end];
    ghost var terminated := Terminated(b);
    var count, pos := 0, end;
    if file[end - 1] == NL {
      count := -1;
    }
    NoNewlines(b);
    while pos > 0
      invariant 0 <= pos <= end && count == Newlines(b, pos) - terminated && count < need
    {
      var readStart := if pos < bufSize then 0 else pos - bufSize;
      var at;
      count, at := ScanBlock(file[..end], readStart, pos, need, count, terminated);
      if at.Some? {
        FoundLines(b, at.value, need);
        return at.value, need, true;
      }
      pos := readStart;
    }
    LinesByNewlines(b, 0);
    SomeLines(b);
    if count < 0 {
      count := 0;
    }
    return 0, count, true;
  }

  /** 1 if the text ends in a newline, which then starts no line. */
  function Terminated(b: Text): nat {
    if b != [] && b[|b| - 1] == NL then 1 else 0
  }

  lemma NoNewlines(b: Text)
    ensures Newlines(b, |b|) == 0
  {
  }

  lemma FoundLines(b: Text, at: nat, need: nat)
    requires 0 < need && 0 < at <= |b| && b[at - 1] == NL && Newlines(b, at - 1) - Terminated(b) == need
    ensures at < |b| && LineCount(b, at) == need && need < LineCount(b, 0)
  {
    hide LineCount;
    LinesByNewlines(b, at);
    LinesByNewlines(b, 0);
    NewlinesShrink(b, 0, at - 1);
    NoNewlines(b);
    assert Newlines(b, at) + 1 == Newlines(b, at - 1);
  }

  lemma {:induction false} NewlinesShrink(b: Text, i: nat, j: nat)
    requires i <= j <= |b|
    ensures Newlines(b, j) <= Newlines(b, i)
    decreases j - i
  {
    if i < j {
      NewlinesShrink(b, i + 1, j);
    }
  }

  // ----- Across chunks -----

  /** The part of chunk `j` before the position (chunkIdx, offset). */
  function Part(chunks: seq<Chunk>, chunkIdx: nat, offset: nat, j: nat): Text
    requires j <= chunkIdx < |chunks|
  {
    if j == chunkIdx && offset <= |chunks[j].bytes| then chunks[j].bytes[..offset] else chunks[j].bytes
  }

  /** Lines in the chunks from `j` up to the position. */
  function LinesBetween(chunks: seq<Chunk>, chunkIdx: nat, offset: nat, j: nat): nat
    requires chunkIdx < |chunks|
    decreases chunkIdx + 1 - j
  {
    if j > chunkIdx then 0
    else LineCount(Part(chunks, chunkIdx, offset, j), 0) + LinesBetween(chunks, chunkIdx, offset, j + 1)
  }

  /** How many of those chunks have anything before the position. */
  function NonEmpty(chunks: seq<Chunk>, chunkIdx: nat, offset: nat, j: nat): nat
    requires chunkIdx < |chunks|
    decreases chunkIdx + 1 - j
  {
    if j > chunkIdx then 0
    else (if Part(chunks, chunkIdx, offset, j) != [] then 1 else 0) + NonEmpty(chunks, chunkIdx, offset, j + 1)
  }

  datatype Start = Start(chunk: nat, offset: nat)

  /** Where findChunkPageStartBefore may land: on a line start exactly n + k
      lines back, k the non-empty chunks fully crossed on the way; or at the
      start of the first chunk when fewer than n + k lines are there. */
  ghost predicate PageStart(chunks: seq<Chunk>, chunkIdx: nat, offset: nat, n: nat, s: Start)
    requires chunkIdx < |chunks|
  {
    || (s.chunk <= chunkIdx
        && var b := Part(chunks, chunkIdx, offset, s.chunk);
        && 0 < s.offset < |b| && b[s.offset - 1] == NL
        && LineCount(b, s.offset) + LinesBetween(chunks, chunkIdx, offset, s.chunk + 1)
           == n + NonEmpty(chunks, chunkIdx, offset, s.chunk + 1))
    || (s == Start(0, 0) && LinesBetween(chunks, chunkIdx, offset, 0) < n + NonEmpty(chunks, chunkIdx, offset, 0))
  }

  /** findChunkPageStartBefore over a store that does not change meanwhile. */
  method FindPageStartBefore(chunks: seq<Chunk>, chunkIdx: nat, offset: nat, n: nat, bufSize: nat)
    returns (s: Start, ok: bool)
    requires chunkIdx < |chunks| && 0 < n && 0 < bufSize
    ensures ok == (offset <= |chunks[chunkIdx].bytes|)
    ensures ok ==> PageStart(chunks, chunkIdx, offset, n, s)
  {
    hide LineCount;
    var remaining := n;
    var i := chunkIdx + 1;
    while i > 0
      invariant 0 <= i <= chunkIdx + 1 && 0 < remaining
      invariant i <= chunkIdx ==> offset <= |chunks[chunkIdx].bytes|
      invariant remaining + LinesBetween(chunks, chunkIdx, offset, i) == n + NonEmpty(chunks, chunkIdx, offset, i)
    {
      i := i - 1;
      var end := offset;
      if i != chunkIdx {
        end := |chunks[i].bytes|;
      }
      var at, found, scanned := ScanBackward(chunks[i].bytes, end, remaining, bufSize);
      if !scanned {
        return Start(0, 0), false;
      }
      ghost var b := Part(chunks, chunkIdx, offset, i);
      assert b == chunks[i].bytes[..end];
      SomeLines(b);
      remaining := remaining - found;
      if remaining <= 0 {
        return Start(i, at), true;
      }
    }
    return Start(0, 0), true;
  }

  lemma SomeLines(b: Text)
    ensures b == [] <==> LineCount(b, 0) == 0
  {
  }

  // ----- GetLogs for a pod with one container -----

  datatype PageToken = NoToken | Garbage | At(cursor: Cursor)

  datatype Reply =
    | NotFound
    | InvalidToken
    | ReadError
    | Logs(lines: seq<Text>, next: Option<Cursor>, prev: Option<Cursor>)

  predicate IsSegmentOf(chunk: Chunk, c: Cursor) {
    chunk.container == c.container && chunk.segment == c.segment
  }

  /** findChunkIndex */
  function FindChunk(chunks: seq<Chunk>, c: Cursor, from: nat): (i: Option<nat>)
    requires from <= |chunks|
    ensures i.Some? ==> from <= i.value < |chunks| && IsSegmentOf(chunks[i.value], c)
    ensures forall k :: from <= k < (if i == None then |chunks| else i.value) ==> !IsSegmentOf(chunks[k], c)
    decreases |chunks| - from
  {
    if from == |chunks| then None
    else if IsSegmentOf(chunks[from], c) then Some(from)
    else FindChunk(chunks, c, from + 1)
  }

  const BUF_SIZE := 32 * 1024

  /** Everything a request starting at `s` can reach. */
  function Reach(stampOf: Text -> Option<Time>, start: Option<Time>, end: Option<Time>, chunks: seq<Chunk>,
                 s: Start): seq<Text> {
    Remaining(stampOf, start, end, chunks, s.chunk, s.offset)
  }

  /** Everything a next token can reach; an exhausted client reaches nothing. */
  function ReachFrom(stampOf: Text -> Option<Time>, start: Option<Time>, end: Option<Time>,
                     chunks: seq<Chunk>, next: Option<Cursor>): seq<Text>
  {
    if next == None then []
    else
      match FindChunk(chunks, next.value, 0)
      case None => []
      case Some(idx) =>
        if next.value.offset < 0 then [] else Remaining(stampOf, start, end, chunks, idx, next.value.offset)
  }

  /** The cursor names a chunk, and an offset within it. */
  ghost predicate Inside(chunks: seq<Chunk>, next: Option<Cursor>) {
    next.Some? ==>
      var i := FindChunk(chunks, next.value, 0);
      i.Some? && 0 <= next.value.offset <= |chunks[i.value].bytes|
  }

  /** No two chunks are the same segment. */
  ghost predicate DistinctChunks(chunks: seq<Chunk>) {
    forall i, j :: 0 <= i < j < |chunks| ==>
      chunks[i].container != chunks[j].container || chunks[i].segment != chunks[j].segment
  }

  /** GetLogs: the page shown, and then all its next token can reach, are all
      that the requested position can reach; a last page starts where n lines
      back, not counting one line for each chunk crossed, is. */
  method GetLogs(stampOf: Text -> Option<Time>, start: Option<Time>, end: Option<Time>, chunks: seq<Chunk>,
                 requested: int, token: PageToken, last: bool) returns (reply: Reply, ghost from: Start)
    requires DistinctChunks(chunks)
    ensures chunks == [] <==> reply == NotFound
    ensures reply.Logs? ==> from.chunk < |chunks| && |reply.lines| <= PageSize(requested)
    ensures reply.Logs? ==>
              Reach(stampOf, start, end, chunks, from)
                  == reply.lines + ReachFrom(stampOf, start, end, chunks, reply.next)
    ensures reply.Logs? && reply.next.Some? ==> |reply.lines| == PageSize(requested)
    ensures reply.Logs? ==> PageFrom(stampOf, start, end, chunks, from, requested, reply.lines)
    ensures reply.Logs? && from.offset <= |chunks[from.chunk].bytes| ==> Inside(chunks, reply.next)
    ensures reply.Logs? && last ==>
              PageStart(chunks, |chunks| - 1, |chunks[|chunks| - 1].bytes|, PageSize(requested), from)
    ensures chunks != [] && last ==> reply.Logs?
    ensures chunks != [] && !last && token == NoToken ==> reply.Logs? && from == Start(0, 0)
    ensures chunks != [] && !last && token == Garbage ==> reply == InvalidToken
    ensures !last && token.At? && chunks != [] ==>
              var i := FindChunk(chunks, token.cursor, 0);
              if i == None then reply == InvalidToken
              else if 0 <= token.cursor.offset <= |chunks[i.value].bytes|
              then reply.Logs? && from == Start(i.value, token.cursor.offset)
              else reply == ReadError
    ensures reply.Logs? ==> (reply.prev == None <==> from == Start(0, 0))
    ensures reply.Logs? && reply.prev.Some? ==>
              exists s :: PageStart(chunks, from.chunk, from.offset, PageSize(requested), s)
                          && s.chunk < |chunks| && reply.prev.value == CursorAt(chunks, s.chunk, s.offset)
  {
    hide LineCount, Remaining, PageStart, Filter, Rest, PageFrom;
    from := Start(0, 0);
    var pageSize := PageSize(requested);
    if |chunks| == 0 {
      return NotFound, from;
    }
    var at := Start(0, 0);
    if last {
      var lastIdx := |chunks| - 1;
      var ok;
      at, ok := FindPageStartBefore(chunks, lastIdx, |chunks[lastIdx].bytes|, pageSize, BUF_SIZE);
      StartInside(chunks, lastIdx, |chunks[lastIdx].bytes|, pageSize, at);
    } else if token != NoToken {
      if token == Garbage {
        return InvalidToken, from;
      }
      var idx := FindChunk(chunks, token.cursor, 0);
      if idx == None {
        return InvalidToken, from;
      }
      if token.cursor.offset < 0 {
        return ReadError, from;
      }
      at := Start(idx.value, token.cursor.offset);
    }
    from := at;
    var lines, next, lastChunk, lastOffset := ReadPage(stampOf, start, end, chunks, at.chunk, at.offset, pageSize);
    if next.Some? {
      FindsItself(chunks, lastChunk, lastOffset);
    }
    PageIsFirst(stampOf, start, end, chunks, at, requested, lines,
                Remaining(stampOf, start, end, chunks, lastChunk, lastOffset));
    var prev: Option<Cursor> := None;
    if at.chunk > 0 || at.offset > 0 {
      var before, ok := FindPageStartBefore(chunks, at.chunk, at.offset, pageSize, BUF_SIZE);
      if !ok {
        return ReadError, from;
      }
      StartInside(chunks, at.chunk, at.offset, pageSize, before);
      prev := Some(CursorAt(chunks, before.chunk, before.offset));
    }
    reply := Logs(lines, next, prev);
  }

  /** A page holds the first lines from where it starts that do not begin with a
      time out of range. */
  ghost predicate PageFrom(stampOf: Text -> Option<Time>, start: Option<Time>, end: Option<Time>, chunks: seq<Chunk>,
                           from: Start, requested: int, page: seq<Text>) {
    var ahead := Filter(line => || stampOf(line).None?
                                || ((start.None? || start.value <= stampOf(line).value)
                                    && (end.None? || stampOf(line).value <= end.value)),
                        Rest(chunks, from.chunk, from.offset));
    var p := if requested <= 0 then 200 else if requested > 1000 then 1000 else requested;
    page == if p < |ahead| then ahead[..p] else ahead
  }

  lemma PageIsFirst(stampOf: Text -> Option<Time>, start: Option<Time>, end: Option<Time>, chunks: seq<Chunk>,
                    from: Start, requested: int, page: seq<Text>, rest: seq<Text>)
    requires Remaining(stampOf, start, end, chunks, from.chunk, from.offset) == page + rest
    requires |page| <= PageSize(requested) && (rest != [] ==> |page| == PageSize(requested))
    ensures PageFrom(stampOf, start, end, chunks, from, requested, page)
  {
    hide Remaining, Filter, Rest;
    RemainingSpelledOut(stampOf, start, end, chunks, from.chunk, from.offset);
    assert rest == [] ==> page + rest == page;
  }

  lemma StartInside(chunks: seq<Chunk>, chunkIdx: nat, offset: nat, n: nat, s: Start)
    requires chunkIdx < |chunks| && PageStart(chunks, chunkIdx, offset, n, s)
    ensures s.chunk < |chunks| && s.offset <= |chunks[s.chunk].bytes|
  {
  }

  lemma FindsItself(chunks: seq<Chunk>, idx: nat, pos: nat)
    requires DistinctChunks(chunks) && idx < |chunks|
    ensures FindChunk(chunks, CursorAt(chunks, idx, pos), 0) == Some(idx)
  {
    FindsAt(chunks, idx, CursorAt(chunks, idx, pos));
  }

  /** Everything a client is shown that follows next tokens from the first
      request to the end: exactly the matching lines, in order, on full pages
      but for the last. */
  method ShowAll(stampOf: Text -> Option<Time>, start: Option<Time>, end: Option<Time>, chunks: seq<Chunk>,
                 requested: int) returns (pages: seq<seq<Text>>)
    requires chunks != [] && DistinctChunks(chunks)
    ensures Joined(pages) == Remaining(stampOf, start, end, chunks, 0, 0)
    ensures Joined(pages)
         == Filter(line => || stampOf(line).None?
                           || ((start.None? || start.value <= stampOf(line).value)
                               && (end.None? || stampOf(line).value <= end.value)),
                   Rest(chunks, 0, 0))
    ensures pages != [] && |pages[|pages| - 1]| <= PageSize(requested)
    ensures forall i :: 0 <= i < |pages| - 1 ==> |pages[i]| == PageSize(requested)
  {
    hide Remaining, FindChunk, PageStart, Joined, DistinctChunks, Filter, Rest, PageFrom;
    var reply, _ := GetLogs(stampOf, start, end, chunks, requested, NoToken, false);
    pages := [reply.lines];
    JoinedOne(pages);
    var next := reply.next;
    while next.Some?
      invariant Inside(chunks, next)
      invariant Joined(pages) + ReachFrom(stampOf, start, end, chunks, next)
             == Remaining(stampOf, start, end, chunks, 0, 0)
      invariant pages != [] && |pages[|pages| - 1]| <= PageSize(requested)
      invariant forall i :: 0 <= i < |pages| - (if next.Some? then 0 else 1) ==> |pages[i]| == PageSize(requested)
      decreases next.Some?, |ReachFrom(stampOf, start, end, chunks, next)|
    {
      var page, _ := GetLogs(stampOf, start, end, chunks, requested, At(next.value), false);
      JoinedMore(pages, page.lines);
      Associate(Joined(pages), page.lines, ReachFrom(stampOf, start, end, chunks, page.next));
      pages := pages + [page.lines];
      next := page.next;
    }
    RemainingSpelledOut(stampOf, start, end, chunks, 0, 0);
  }

  // ----- What the last page shows -----

  /** Lines from a position to the end, as the forward reader sees them. */
  lemma {:induction false} RestCount(chunks: seq<Chunk>, j: nat)
    requires chunks != []
    ensures |Rest(chunks, j, 0)| == LinesBetween(chunks, |chunks| - 1, |chunks[|chunks| - 1].bytes|, j)
    decreases |chunks| - j
  {
    hide LinesFrom;
    if j < |chunks| {
      var n := |chunks| - 1;
      var b := chunks[n].bytes;
      assert b[..|b|] == b;
      RestCount(chunks, j + 1);
    }
  }

  /** The last page of an unfiltered request starts n + k lines before the end,
      k the chunks fully crossed, or at the very start when fewer are there. */
  lemma LastPageMissesCrossed(chunks: seq<Chunk>, n: nat, s: Start)
    requires chunks != [] && 0 < n
    requires PageStart(chunks, |chunks| - 1, |chunks[|chunks| - 1].bytes|, n, s)
    ensures var lastIdx := |chunks| - 1;
            var size := |chunks[lastIdx].bytes|;
            var crossed := NonEmpty(chunks, lastIdx, size, s.chunk + 1);
            && (s.offset > 0 ==> |Rest(chunks, s.chunk, s.offset)| == n + crossed)
            && (s == Start(0, 0) ==> |Rest(chunks, 0, 0)| < n + NonEmpty(chunks, lastIdx, size, 0))
  {
    hide LinesFrom, LinesBetween, NonEmpty, LineCount, Rest, Part;
    RestCount(chunks, 0);
    if s.offset > 0 {
      StartInChunk(chunks, n, s);
      RestOfChunk(chunks, s.chunk, s.offset);
    }
  }

  /** The last chunk with anything in it, or the first if there is none. */
  function LastFilled(chunks: seq<Chunk>): (m: nat)
    requires chunks != []
    ensures m < |chunks| && (m == 0 || chunks[m].bytes != []) && forall j :: m < j < |chunks| ==> chunks[j].bytes == []
  {
    var n := |chunks| - 1;
    if n == 0 || chunks[n].bytes != [] then n else LastFilled(chunks[..n])
  }

  /** From chunk `j` on there are at least as many lines as non-empty chunks,
      and all the lines of the last one among them. */
  lemma {:induction false} LinesAndChunks(chunks: seq<Chunk>, j: nat)
    requires chunks != [] && j <= |chunks|
    ensures var last, m := |chunks| - 1, LastFilled(chunks);
            var size := |chunks[last].bytes|;
            var lines, filled := LinesBetween(chunks, last, size, j), NonEmpty(chunks, last, size, j);
            && (j > m || chunks[m].bytes == [] ==> lines == filled == 0)
            && (j <= m && chunks[m].bytes != [] ==> lines >= LineCount(chunks[m].bytes, 0) + filled - 1 && filled >= 1)
            && (j == m && chunks[m].bytes != [] ==> lines == LineCount(chunks[m].bytes, 0) && filled == 1)
    decreases |chunks| - j
  {
    hide LinesFrom, LastFilled;
    if j < |chunks| {
      var last := |chunks| - 1;
      var b := chunks[last].bytes;
      assert b[..|b|] == b;
      SomeLines(chunks[j].bytes);
      LinesAndChunks(chunks, j + 1);
    }
  }

  /** The last page holds the last n lines, or all there are, if and only if
      there are no more than n, or the last chunk with anything in it has more
      than n by itself. */
  lemma LastPageIsLastExactly(chunks: seq<Chunk>, n: nat, s: Start)
    requires chunks != [] && 0 < n
    requires PageStart(chunks, |chunks| - 1, |chunks[|chunks| - 1].bytes|, n, s)
    ensures var total, m := |Rest(chunks, 0, 0)|, LastFilled(chunks);
            |Rest(chunks, s.chunk, s.offset)| == (if n < total then n else total)
            <==> total <= n || n < LineCount(chunks[m].bytes, 0)
  {
    hide LinesFrom, LastFilled, Rest, LinesBetween, NonEmpty, LineCount, Part;
    if s.offset > 0 {
      StartedInside(chunks, n, s);
    } else {
      StartedFirst(chunks, n, s);
    }
  }

  lemma StartedFirst(chunks: seq<Chunk>, n: nat, s: Start)
    requires chunks != [] && 0 < n && s.offset == 0
    requires PageStart(chunks, |chunks| - 1, |chunks[|chunks| - 1].bytes|, n, s)
    ensures s == Start(0, 0)
    ensures var total := |Rest(chunks, 0, 0)|; total <= n || LineCount(chunks[LastFilled(chunks)].bytes, 0) <= n
  {
    hide LinesFrom, LastFilled, Rest, LinesBetween, NonEmpty, LineCount, Part;
    RestCount(chunks, 0);
    LinesAndChunks(chunks, 0);
  }

  lemma StartedInside(chunks: seq<Chunk>, n: nat, s: Start)
    requires chunks != [] && 0 < n && s.offset > 0
    requires PageStart(chunks, |chunks| - 1, |chunks[|chunks| - 1].bytes|, n, s)
    ensures var ahead, lines := |Rest(chunks, s.chunk, s.offset)|, LineCount(chunks[LastFilled(chunks)].bytes, 0);
            && n <= ahead < |Rest(chunks, 0, 0)|
            && (ahead == n <==> n < lines)
  {
    hide LinesFrom, LastFilled, Rest, LinesBetween, NonEmpty, LineCount, Part;
    var last, m := |chunks| - 1, LastFilled(chunks);
    var size := |chunks[last].bytes|;
    StartInChunk(chunks, n, s);
    RestFrom(chunks, s.chunk, s.offset);
    RestOfChunk(chunks, s.chunk, s.offset);
    LinesAndChunks(chunks, s.chunk + 1);
  }

  lemma RestOfChunk(chunks: seq<Chunk>, idx: nat, pos: nat)
    requires idx < |chunks| && pos <= |chunks[idx].bytes|
    ensures var last := |chunks| - 1;
            |Rest(chunks, idx, pos)|
            == LineCount(chunks[idx].bytes, pos) + LinesBetween(chunks, last, |chunks[last].bytes|, idx + 1)
  {
    hide LinesFrom, LinesBetween;
    RestCount(chunks, idx + 1);
  }

  /** Where the scan stops inside a chunk: part of its lines are before it. */
  lemma StartInChunk(chunks: seq<Chunk>, n: nat, s: Start)
    requires chunks != [] && s.offset > 0
    requires PageStart(chunks, |chunks| - 1, |chunks[|chunks| - 1].bytes|, n, s)
    ensures s.chunk < |chunks|
    ensures var b := chunks[s.chunk].bytes;
            s.offset < |b| && b[s.offset - 1] == NL && 0 < LineCount(b, s.offset) < LineCount(b, 0)
    ensures var last := |chunks| - 1;
            LineCount(chunks[s.chunk].bytes, s.offset) + LinesBetween(chunks, last, |chunks[last].bytes|, s.chunk + 1)
            == n + NonEmpty(chunks, last, |chunks[last].bytes|, s.chunk + 1)
  {
    hide LinesFrom;
    var b := chunks[s.chunk].bytes;
    assert b[..|b|] == b;
    SplitCount(b, s.offset);
  }

  lemma SplitCount(b: Text, at: nat)
    requires 0 < at < |b| && b[at - 1] == NL
    ensures 0 < LineCount(b, at) < LineCount(b, 0)
  {
    hide LinesFrom;
    assert b[..at] + b[at..] == b;
    SplitLines(b[..at], b[at..], 0);
    SomeLines(b[..at]);
    FirstLine(b, at);
  }

  /** What is ahead of the scan's start is no more than everything. */
  lemma RestFrom(chunks: seq<Chunk>, idx: nat, pos: nat)
    requires idx < |chunks| && 0 < pos < |chunks[idx].bytes| && chunks[idx].bytes[pos - 1] == NL
    ensures |Rest(chunks, idx, pos)| < |Rest(chunks, idx, 0)| <= |Rest(chunks, 0, 0)|
  {
    hide LinesFrom;
    SplitCount(chunks[idx].bytes, pos);
    RestGrows(chunks, idx);
  }

  lemma {:induction false} RestGrows(chunks: seq<Chunk>, idx: nat)
    requires idx <= |chunks|
    ensures |Rest(chunks, idx, 0)| <= |Rest(chunks, 0, 0)|
  {
    hide LinesFrom;
    if idx > 0 {
      RestGrows(chunks, idx - 1);
    }
  }

  /** Two chunks of one line each, and a page of one: the page read from where
      the scan lands is the older line, not the newest. */
  lemma NewestLineLeftOut(container: Text, x: Text, y: Text, s: Start)
    requires Plain(x) && Plain(y)
    requires var chunks := [Chunk(container, [0x31], Stored(x)), Chunk(container, [0x32], Stored(y))];
             PageStart(chunks, 1, |Stored(y)|, 1, s)
    ensures var chunks := [Chunk(container, [0x31], Stored(x)), Chunk(container, [0x32], Stored(y))];
            s == Start(0, 0) && Rest(chunks, s.chunk, s.offset) == [x, y]
  {
    hide LinesFrom;
    var chunks := [Chunk(container, [0x31], Stored(x)), Chunk(container, [0x32], Stored(y))];
    OneStored(x);
    OneStored(y);
    RestOfTwo(chunks, 0);
    if s.offset > 0 {
      StartInChunk(chunks, 1, s);
    }
  }

  lemma OneStored(line: Text)
    requires Plain(line)
    ensures LinesAt(Stored(line), 0) == [line] && LineCount(Stored(line), 0) == 1
  {
    hide LinesFrom;
    LastLine([], line);
    assert [] + Stored(line) == Stored(line);
    assert Texts([Located(0, line)]) == [line];
  }

  // ----- What a prev page shows -----

  /** The store before a position. */
  function Before(chunks: seq<Chunk>, idx: nat, offset: nat): (r: seq<Chunk>)
    requires idx < |chunks| && offset <= |chunks[idx].bytes|
    ensures |r| == idx + 1 && r[idx].bytes == chunks[idx].bytes[..offset]
    ensures forall j :: 0 <= j < idx ==> r[j] == chunks[j]
  {
    chunks[..idx] + [chunks[idx].(bytes := chunks[idx].bytes[..offset])]
  }

  /** Scanning back from a position sees just the store before it. */
  lemma {:induction false} SameBefore(chunks: seq<Chunk>, idx: nat, offset: nat, j: nat)
    requires idx < |chunks| && offset <= |chunks[idx].bytes|
    ensures var cut := Before(chunks, idx, offset);
            && (j <= idx ==> Part(cut, idx, offset, j) == Part(chunks, idx, offset, j))
            && LinesBetween(cut, idx, offset, j) == LinesBetween(chunks, idx, offset, j)
            && NonEmpty(cut, idx, offset, j) == NonEmpty(chunks, idx, offset, j)
    decreases idx + 1 - j
  {
    hide LineCount, Before;
    if j <= idx {
      var whole := Before(chunks, idx, offset)[idx].bytes;
      assert whole[..offset] == whole;
      SameBefore(chunks, idx, offset, j + 1);
    }
  }

  lemma PageStartBefore(chunks: seq<Chunk>, idx: nat, offset: nat, n: nat, s: Start)
    requires idx < |chunks| && offset <= |chunks[idx].bytes| && PageStart(chunks, idx, offset, n, s)
    ensures PageStart(Before(chunks, idx, offset), idx, offset, n, s)
  {
    hide LineCount, Before, LinesBetween, NonEmpty, Part;
    SameBefore(chunks, idx, offset, s.chunk);
    SameBefore(chunks, idx, offset, s.chunk + 1);
    SameBefore(chunks, idx, offset, 0);
  }

  /** From any position, the start found is exactly n lines back, or at the start
      when there are fewer, if and only if there are no more than n lines before
      the position, or the last filled part before it has more than n by itself. */
  lemma PageStartIsExactly(chunks: seq<Chunk>, idx: nat, offset: nat, n: nat, s: Start)
    requires idx < |chunks| && offset <= |chunks[idx].bytes| && 0 < n && PageStart(chunks, idx, offset, n, s)
    ensures var cut := Before(chunks, idx, offset);
            var total, gap := |Rest(cut, 0, 0)|, |Rest(cut, s.chunk, s.offset)|;
            && (gap == (if n < total then n else total) <==> gap <= n)
            && (gap <= n <==> total <= n || n < LineCount(cut[LastFilled(cut)].bytes, 0))
  {
    hide LinesFrom, LastFilled, Rest, LinesBetween, NonEmpty, LineCount, Part, Before, PageStart;
    var cut := Before(chunks, idx, offset);
    PageStartBefore(chunks, idx, offset, n, s);
    LastPageIsLastExactly(cut, n, s);
    if s.offset > 0 {
      StartedInside(cut, n, s);
    } else {
      StartedFirst(cut, n, s);
    }
  }

  /** What lies ahead of an earlier place is what lies between it and a line
      start, and what lies ahead of that. */
  lemma {:induction false} RestJoins(chunks: seq<Chunk>, idx: nat, offset: nat, j: nat, pos: nat)
    requires idx < |chunks| && offset <= |chunks[idx].bytes| && Whole(chunks[idx].bytes[..offset])
    requires j <= idx && (j == idx ==> pos <= offset)
    ensures Rest(chunks, j, pos) == Rest(Before(chunks, idx, offset), j, pos) + Rest(chunks, idx, offset)
    decreases idx - j
  {
    hide LinesAt, Before;
    var cut := Before(chunks, idx, offset);
    if j == idx {
      LinesAtJoin(chunks[idx].bytes, offset, pos);
      assert Rest(cut, j, pos) == LinesAt(cut[idx].bytes, pos) + [];
      Associate(LinesAt(cut[idx].bytes, pos), LinesAt(chunks[idx].bytes, offset), Rest(chunks, idx + 1, 0));
    } else {
      RestJoins(chunks, idx, offset, j + 1, 0);
      Associate(LinesAt(chunks[j].bytes, pos), Rest(cut, j + 1, 0), Rest(chunks, idx, offset));
    }
  }

  lemma LinesAtJoin(b: Text, at: nat, pos: nat)
    requires pos <= at <= |b| && Whole(b[..at])
    ensures LinesAt(b, pos) == LinesAt(b[..at], pos) + LinesAt(b, at)
  {
    hide LinesFrom;
    assert b[..at] + b[at..] == b;
    SplitLines(b[..at], b[at..], pos);
  }

  /** A prev page of an unfiltered request runs up to the page it precedes if and
      only if that holds; else the lines past its n are on neither page. */
  lemma PrevPageJoinsExactly(chunks: seq<Chunk>, idx: nat, offset: nat, n: nat, s: Start)
    requires idx < |chunks| && offset <= |chunks[idx].bytes| && 0 < n && PageStart(chunks, idx, offset, n, s)
    requires Whole(chunks[idx].bytes[..offset])
    ensures var cut := Before(chunks, idx, offset);
            var total, gap := |Rest(cut, 0, 0)|, |Rest(cut, s.chunk, s.offset)|;
            && gap <= |Rest(chunks, s.chunk, s.offset)|
            && Rest(chunks, s.chunk, s.offset)[gap..] == Rest(chunks, idx, offset)
            && (gap <= n <==> total <= n || n < LineCount(cut[LastFilled(cut)].bytes, 0))
  {
    hide LinesFrom, LastFilled, Rest, LinesBetween, NonEmpty, LineCount, Part, Before;
    PageStartIsExactly(chunks, idx, offset, n, s);
    StartNotAfter(chunks, idx, offset, n, s);
    RestJoins(chunks, idx, offset, s.chunk, s.offset);
  }

  lemma StartNotAfter(chunks: seq<Chunk>, idx: nat, offset: nat, n: nat, s: Start)
    requires idx < |chunks| && offset <= |chunks[idx].bytes| && PageStart(chunks, idx, offset, n, s)
    ensures s.chunk <= idx && (s.chunk == idx ==> s.offset <= offset)
  {
    hide LineCount, LinesBetween, NonEmpty;
  }

  /** Two chunks of two lines each, and pages of one: going back from the page
      that starts at the last line, the page found is the second line's, and the
      third is never shown. */
  lemma ThirdLineSkipped(a: byte, b: byte, c: byte, d: byte, container: Text, s: Start)
    requires Plain([a]) && Plain([b]) && Plain([c]) && Plain([d])
    requires var chunks := [Chunk(container, [0x31], Stored([a]) + Stored([b])),
                            Chunk(container, [0x32], Stored([c]) + Stored([d]))];
             PageStart(chunks, 1, 2, 1, s)
    ensures var chunks := [Chunk(container, [0x31], Stored([a]) + Stored([b])),
                           Chunk(container, [0x32], Stored([c]) + Stored([d]))];
            Rest(chunks, 1, 2) == [[d]] && Rest(chunks, s.chunk, s.offset) == [[b], [c], [d]]
  {
    hide LinesFrom, Rest, LinesAt, Before, LineCount, LinesBetween, NonEmpty;
    var first, second := Stored([a]) + Stored([b]), Stored([c]) + Stored([d]);
    var chunks := [Chunk(container, [0x31], first), Chunk(container, [0x32], second)];
    TwoStored([a], [b]);
    TwoStored([c], [d]);
    OneStored([c]);
    assert second[..2] == Stored([c]);
    assert Part(chunks, 1, 2, 1) == Stored([c]) && Part(chunks, 1, 2, 0) == first;
    CountsOfTwo(chunks, 2);
    RestOfTwo(chunks, 2);
    assert s.chunk == 1 ==> s.offset == 1;
    assert s.chunk == 0 && s.offset > 0 ==> s.offset == 2;
  }

  lemma TwoStored(x: Text, y: Text)
    requires Plain(x) && Plain(y)
    ensures var b := Stored(x) + Stored(y);
            && LinesAt(b, 0) == [x, y] && LinesAt(b, |x| + 1) == [y]
            && LineCount(b, 0) == 2 && LineCount(b, |x| + 1) == 1
  {
    hide LinesFrom;
    OneStored(x);
    AppendLine(Stored(x), y, 0);
    LastLine(Stored(x), y);
  }

  lemma CountsOfTwo(chunks: seq<Chunk>, offset: nat)
    requires |chunks| == 2
    requires forall j :: 0 <= j < 2 ==> Part(chunks, 1, offset, j) != []
    ensures LinesBetween(chunks, 1, offset, 2) == NonEmpty(chunks, 1, offset, 2) == 0
    ensures LinesBetween(chunks, 1, offset, 1) == LineCount(Part(chunks, 1, offset, 1), 0)
    ensures LinesBetween(chunks, 1, offset, 0)
         == LineCount(Part(chunks, 1, offset, 0), 0) + LineCount(Part(chunks, 1, offset, 1), 0)
    ensures NonEmpty(chunks, 1, offset, 1) == 1 && NonEmpty(chunks, 1, offset, 0) == 2
  {
    hide LineCount, Part;
    assert LinesBetween(chunks, 1, offset, 1) == LineCount(Part(chunks, 1, offset, 1), 0) + 0;
  }

  lemma RestOfTwo(chunks: seq<Chunk>, offset: nat)
    requires |chunks| == 2
    ensures Rest(chunks, 1, offset) == LinesAt(chunks[1].bytes, offset)
    ensures Rest(chunks, 0, offset) == LinesAt(chunks[0].bytes, offset) + LinesAt(chunks[1].bytes, 0)
  {
    hide LinesAt;
    assert Rest(chunks, 2, 0) == [];
    assert Rest(chunks, 1, 0) == LinesAt(chunks[1].bytes, 0) + [];
    assert Rest(chunks, 1, offset) == LinesAt(chunks[1].bytes, offset) + [];
  }

  // ----- Paging a store that changes between requests -----

  /** A client part way through: what it was shown, and its next token. */
  datatype Client = Client(chunks: seq<Chunk>, got: seq<Text>, next: Option<Cursor>)

  /** What it was shown and can still be shown. */
  function Total(stampOf: Text -> Option<Time>, start: Option<Time>, end: Option<Time>, c: Client): seq<Text> {
    c.got + ReachFrom(stampOf, start, end, c.chunks, c.next)
  }

  datatype Event =
    | Page(lines: seq<Text>)
    | AppendLineTo(chunk: nat, line: Text)
    | NewSegment(container: Text, segment: Text)
    | DeleteSegment(chunk: nat)

  ghost predicate GoodClient(c: Client) {
    DistinctChunks(c.chunks) && Inside(c.chunks, c.next)
  }

  /** A page as GetLogs answers its token, or a change to the store: a whole
      line added to a segment without an unfinished one, at or after the cursor,
      a new last segment, or the removal of a segment before the cursor's. */
  ghost predicate Happens(stampOf: Text -> Option<Time>, start: Option<Time>, end: Option<Time>, c: Client, e: Event,
                          d: Client) {
    && c.next.Some? && FindChunk(c.chunks, c.next.value, 0).Some?
    && var at := FindChunk(c.chunks, c.next.value, 0).value;
    match e
    case Page(lines) =>
      && d.chunks == c.chunks && d.got == c.got + lines && Inside(d.chunks, d.next) && (d.next.Some? ==> lines != [])
      && ReachFrom(stampOf, start, end, c.chunks, c.next) == lines + ReachFrom(stampOf, start, end, c.chunks, d.next)
    case AppendLineTo(j, line) =>
      && at <= j < |c.chunks| && Plain(line) && Whole(c.chunks[j].bytes)
      && d == c.(chunks := c.chunks[j := c.chunks[j].(bytes := c.chunks[j].bytes + Stored(line))])
    case NewSegment(container, segment) =>
      && d == c.(chunks := c.chunks + [Chunk(container, segment, [])]) && DistinctChunks(d.chunks)
    case DeleteSegment(j) =>
      && j < at && d == c.(chunks := c.chunks[..j] + c.chunks[j + 1..])
  }

  /** The request a client makes for its next page; it goes on only after a full
      page. */
  method NextPage(stampOf: Text -> Option<Time>, start: Option<Time>, end: Option<Time>, c: Client, requested: int)
    returns (lines: seq<Text>, d: Client)
    requires GoodClient(c) && c.next.Some?
    ensures Happens(stampOf, start, end, c, Page(lines), d) && d.got == c.got + lines
    ensures |lines| <= PageSize(requested) && (d.next.Some? ==> |lines| == PageSize(requested))
  {
    hide Matches, Rest, FindChunk, Filter;
    var reply, _ := GetLogs(stampOf, start, end, c.chunks, requested, At(c.next.value), false);
    lines := reply.lines;
    d := Client(c.chunks, c.got + lines, reply.next);
  }

  /** `b` is `a` with `x` put in at `k` or later. */
  ghost predicate Inserted(a: seq<Text>, b: seq<Text>, x: Text, k: nat) {
    exists i :: k <= i <= |a| && b == a[..i] + [x] + a[i..]
  }

  lemma {:induction false} RestAppend(chunks: seq<Chunk>, idx: nat, pos: nat, j: nat, line: Text) returns (i: nat)
    requires idx <= j < |chunks| && pos <= |chunks[idx].bytes| && Plain(line)
    requires Whole(chunks[j].bytes)
    ensures var after := chunks[j := chunks[j].(bytes := chunks[j].bytes + Stored(line))];
            var a := Rest(chunks, idx, pos);
            i <= |a| && Rest(after, idx, pos) == a[..i] + [line] + a[i..]
    decreases j - idx
  {
    hide LinesFrom, LinesAt;
    var after := chunks[j := chunks[j].(bytes := chunks[j].bytes + Stored(line))];
    if idx == j {
      var b := chunks[j].bytes;
      AppendLine(b, line, pos);
      i := |LinesAt(b, pos)|;
      LinesAtAppend(b, line, pos);
      SameRest(chunks, after, j + 1);
      SpliceFirst(LinesAt(b, pos), [line], Rest(chunks, j + 1, 0));
    } else {
      var k := RestAppend(chunks, idx + 1, 0, j, line);
      var here, there := LinesAt(chunks[idx].bytes, pos), Rest(chunks, idx + 1, 0);
      i := |here| + k;
      SpliceLater(here, there, line, k);
    }
  }

  lemma LinesAtAppend(b: Text, line: Text, pos: nat)
    requires pos <= |b| && LinesFrom(b + Stored(line), pos) == LinesFrom(b, pos) + [Located(|b|, line)]
    ensures LinesAt(b + Stored(line), pos) == LinesAt(b, pos) + [line]
  {
    hide LinesFrom;
  }

  lemma {:induction false} SameRest(a: seq<Chunk>, b: seq<Chunk>, idx: nat)
    requires |a| == |b| && forall k :: idx <= k < |a| ==> a[k] == b[k]
    ensures Rest(a, idx, 0) == Rest(b, idx, 0)
    decreases |a| - idx
  {
    hide LinesAt;
    if idx < |a| {
      SameRest(a, b, idx + 1);
    }
  }

  lemma SpliceFirst(a: seq<Text>, x: seq<Text>, b: seq<Text>)
    ensures (a + x) + b == (a + b)[..|a|] + x + (a + b)[|a|..]
  {
    assert (a + b)[..|a|] == a && (a + b)[|a|..] == b;
  }

  lemma SpliceLater(a: seq<Text>, b: seq<Text>, x: Text, k: nat)
    requires k <= |b|
    ensures a + (b[..k] + [x] + b[k..]) == (a + b)[..|a| + k] + [x] + (a + b)[|a| + k..]
  {
    assert (a + b)[..|a| + k] == a + b[..k];
    assert (a + b)[|a| + k..] == b[k..];
  }

  lemma FilterInserted(keep: Text -> bool, a: seq<Text>, i: nat, x: Text) returns (k: nat)
    requires i <= |a|
    ensures var f := Filter(keep, a);
            k <= |f| && Filter(keep, a[..i] + [x] + a[i..]) == if keep(x) then f[..k] + [x] + f[k..] else f
  {
    hide Filter;
    var u, v := a[..i], a[i..];
    assert a == u + v;
    FilterConcat(keep, u, v);
    FilterConcat(keep, u + [x], v);
    FilterStep(keep, u, x);
    k := |Filter(keep, u)|;
    var f := Filter(keep, u) + Filter(keep, v);
    assert f[..k] == Filter(keep, u) && f[k..] == Filter(keep, v);
  }

  /** No event repeats or skips a line: a page moves lines from what is ahead
      to what was shown, an appended line joins what is ahead, and the rest
      changes nothing. */
  lemma EventKeepsTotal(stampOf: Text -> Option<Time>, start: Option<Time>, end: Option<Time>, c: Client, e: Event,
                        d: Client)
    requires GoodClient(c) && Happens(stampOf, start, end, c, e, d)
    ensures GoodClient(d)
    ensures var before, after := Total(stampOf, start, end, c), Total(stampOf, start, end, d);
            if e.AppendLineTo? && Matches(stampOf, start, end, e.line) then Inserted(before, after, e.line, |c.got|)
            else after == before
  {
    match e {
      case Page(lines) =>
        hide ReachFrom, DistinctChunks;
        Associate(c.got, lines, ReachFrom(stampOf, start, end, c.chunks, d.next));
      case AppendLineTo(j, line) =>
        AppendKeepsTotal(stampOf, start, end, c, j, line, d);
      case NewSegment(container, segment) =>
        NewSegmentKeepsTotal(stampOf, start, end, c, Chunk(container, segment, []), d);
      case DeleteSegment(j) =>
        DeleteKeepsTotal(stampOf, start, end, c, j, d);
    }
  }

  lemma {:induction false} FindAfterAppend(a: seq<Chunk>, b: seq<Chunk>, c: Cursor, from: nat)
    requires from <= |a| <= |b|
    requires forall k :: 0 <= k < |a| ==> a[k].container == b[k].container && a[k].segment == b[k].segment
    ensures FindChunk(a, c, from).Some? ==> FindChunk(b, c, from) == FindChunk(a, c, from)
    decreases |a| - from
  {
    if from < |a| {
      FindAfterAppend(a, b, c, from + 1);
    }
  }

  lemma AppendKeepsTotal(stampOf: Text -> Option<Time>, start: Option<Time>, end: Option<Time>, c: Client, j: nat,
                         line: Text, d: Client)
    requires GoodClient(c) && Happens(stampOf, start, end, c, AppendLineTo(j, line), d)
    ensures GoodClient(d)
    ensures var before, after := Total(stampOf, start, end, c), Total(stampOf, start, end, d);
            if Matches(stampOf, start, end, line) then Inserted(before, after, line, |c.got|) else after == before
  {
    hide Matches, Rest, FindChunk;
    FindAfterAppend(c.chunks, d.chunks, c.next.value, 0);
    var at, pos := FindChunk(c.chunks, c.next.value, 0).value, c.next.value.offset;
    var i := RestAppend(c.chunks, at, pos, j, line);
    var keep := line => Matches(stampOf, start, end, line);
    var k := FilterInserted(keep, Rest(c.chunks, at, pos), i, line);
    var ahead := Remaining(stampOf, start, end, c.chunks, at, pos);
    if keep(line) {
      SpliceLater(c.got, ahead, line, k);
    }
  }

  lemma {:induction false} RestMoreChunks(chunks: seq<Chunk>, idx: nat, pos: nat, more: Chunk)
    requires idx <= |chunks| && more.bytes == [] && (idx == |chunks| ==> pos == 0)
    ensures Rest(chunks + [more], idx, pos) == Rest(chunks, idx, pos)
    decreases |chunks| - idx
  {
    hide LinesAt;
    if idx < |chunks| {
      RestMoreChunks(chunks, idx + 1, 0, more);
    } else {
      LinesAtEnd([], 0);
    }
  }

  lemma NewSegmentKeepsTotal(stampOf: Text -> Option<Time>, start: Option<Time>, end: Option<Time>, c: Client,
                             more: Chunk, d: Client)
    requires GoodClient(c) && c.next.Some? && FindChunk(c.chunks, c.next.value, 0).Some?
    requires more.bytes == [] && d == c.(chunks := c.chunks + [more]) && DistinctChunks(d.chunks)
    ensures GoodClient(d) && Total(stampOf, start, end, d) == Total(stampOf, start, end, c)
  {
    hide Matches, Rest, FindChunk;
    FindAfterAppend(c.chunks, d.chunks, c.next.value, 0);
    RestMoreChunks(c.chunks, FindChunk(c.chunks, c.next.value, 0).value, c.next.value.offset, more);
  }

  lemma {:induction false} RestShifted(a: seq<Chunk>, b: seq<Chunk>, idx: nat, pos: nat)
    requires 0 < idx && |a| == |b| + 1 && forall k :: idx <= k < |a| ==> a[k] == b[k - 1]
    ensures Rest(b, idx - 1, pos) == Rest(a, idx, pos)
    decreases |a| - idx
  {
    hide LinesAt;
    if idx < |a| {
      RestShifted(a, b, idx + 1, 0);
    }
  }

  lemma DeleteKeepsTotal(stampOf: Text -> Option<Time>, start: Option<Time>, end: Option<Time>, c: Client, j: nat,
                         d: Client)
    requires GoodClient(c) && Happens(stampOf, start, end, c, DeleteSegment(j), d)
    ensures GoodClient(d) && Total(stampOf, start, end, d) == Total(stampOf, start, end, c)
  {
    hide Matches, Rest, FindChunk, Filter, Whole, DistinctChunks, ReachFrom;
    var cursor := c.next.value;
    var at := FindChunk(c.chunks, cursor, 0).value;
    DropEarlier(c.chunks, j, at, cursor);
    SameReach(stampOf, start, end, c.chunks, at, d.chunks, at - 1, cursor);
  }

  /** Dropping a chunk before the cursor's only moves the cursor's down. */
  lemma DropEarlier(chunks: seq<Chunk>, j: nat, at: nat, cursor: Cursor)
    requires DistinctChunks(chunks) && FindChunk(chunks, cursor, 0) == Some(at) && j < at
    ensures var rest := chunks[..j] + chunks[j + 1..];
            && DistinctChunks(rest) && FindChunk(rest, cursor, 0) == Some(at - 1) && rest[at - 1] == chunks[at]
            && (forall k :: 0 <= k < |rest| ==> rest[k] in chunks)
            && (cursor.offset >= 0 ==> Rest(rest, at - 1, cursor.offset) == Rest(chunks, at, cursor.offset))
  {
    hide Rest, FindChunk, DistinctChunks;
    var rest := chunks[..j] + chunks[j + 1..];
    FoundHere(chunks, cursor);
    ChunkDropped(chunks, j, rest);
    FindsAt(rest, at - 1, cursor);
    if cursor.offset >= 0 {
      RestShifted(chunks, rest, at, cursor.offset);
    }
  }

  lemma Dropped<T>(s: seq<T>, j: nat, rest: seq<T>)
    requires j < |s| && rest == s[..j] + s[j + 1..]
    ensures forall k :: 0 <= k < |rest| ==> rest[k] == s[if k < j then k else k + 1]
    ensures forall k :: j < k < |s| ==> s[k] == rest[k - 1]
  {
  }

  lemma ChunkDropped(chunks: seq<Chunk>, j: nat, rest: seq<Chunk>)
    requires j < |chunks| && rest == chunks[..j] + chunks[j + 1..] && DistinctChunks(chunks)
    ensures DistinctChunks(rest)
    ensures forall k :: 0 <= k < |rest| ==> rest[k] in chunks
    ensures forall k :: j < k < |chunks| ==> chunks[k] == rest[k - 1]
  {
    Dropped(chunks, j, rest);
    forall a, b | 0 <= a < b < |rest|
      ensures rest[a].container != rest[b].container || rest[a].segment != rest[b].segment
    {
      var c, d := if a < j then a else a + 1, if b < j then b else b + 1;
      assert rest[a] == chunks[c] && rest[b] == chunks[d];
    }
  }

  lemma SameReach(stampOf: Text -> Option<Time>, start: Option<Time>, end: Option<Time>, a: seq<Chunk>, i: nat,
                  b: seq<Chunk>, k: nat, cursor: Cursor)
    requires FindChunk(a, cursor, 0) == Some(i) && FindChunk(b, cursor, 0) == Some(k)
    requires cursor.offset >= 0 && Rest(a, i, cursor.offset) == Rest(b, k, cursor.offset)
    ensures ReachFrom(stampOf, start, end, a, Some(cursor)) == ReachFrom(stampOf, start, end, b, Some(cursor))
  {
    hide Matches, Rest, FindChunk, Filter;
  }

  lemma FoundHere(chunks: seq<Chunk>, c: Cursor)
    ensures var i := FindChunk(chunks, c, 0);
            i.Some? ==> i.value < |chunks| && IsSegmentOf(chunks[i.value], c)
  {
  }

  lemma FindsAt(chunks: seq<Chunk>, idx: nat, c: Cursor)
    requires DistinctChunks(chunks) && idx < |chunks|
    requires chunks[idx].container == c.container && chunks[idx].segment == c.segment
    ensures FindChunk(chunks, c, 0) == Some(idx)
  {
  }

  // ----- Whole runs -----

  predicate Subsequence(a: seq<Text>, b: seq<Text>) {
    if a == [] then true
    else if b == [] then false
    else if a[|a| - 1] == b[|b| - 1] && Subsequence(a[..|a| - 1], b[..|b| - 1]) then true
    else Subsequence(a, b[..|b| - 1])
  }

  lemma {:induction false} SubsequenceReflexive(a: seq<Text>)
    ensures Subsequence(a, a)
  {
    if a != [] {
      SubsequenceReflexive(a[..|a| - 1]);
    }
  }

  lemma {:induction false} SubsequenceMore(a: seq<Text>, b: seq<Text>)
    requires b != [] && Subsequence(a, b[..|b| - 1])
    ensures Subsequence(a, b)
  {
  }

  lemma {:induction false} SubsequenceInserted(a: seq<Text>, b: seq<Text>, i: nat, x: Text)
    requires i <= |b| && Subsequence(a, b)
    ensures Subsequence(a, b[..i] + [x] + b[i..])
    decreases |b|
  {
    var c := b[..i] + [x] + b[i..];
    if i == |b| {
      assert c[..|c| - 1] == b;
      SubsequenceMore(a, c);
    } else {
      var u := b[..|b| - 1];
      assert c[..|c| - 1] == u[..i] + [x] + u[i..];
      if a != [] {
        if a[|a| - 1] == b[|b| - 1] && Subsequence(a[..|a| - 1], u) {
          SubsequenceInserted(a[..|a| - 1], u, i, x);
        } else {
          SubsequenceInserted(a, u, i, x);
        }
      }
    }
  }

  /** The matching lines appended during a run. */
  function Appended(stampOf: Text -> Option<Time>, start: Option<Time>, end: Option<Time>,
                    events: seq<Event>): multiset<Text> {
    if events == [] then multiset{}
    else
      var e := events[|events| - 1];
      Appended(stampOf, start, end, events[..|events| - 1])
      + if e.AppendLineTo? && Matches(stampOf, start, end, e.line) then multiset{e.line} else multiset{}
  }

  /** Over any run, a client that follows next tokens to the end has been shown
      every line that was ahead of it when it began, in order, and every line
      appended meanwhile, each exactly once. */
  lemma {:induction false} RunShowsAll(stampOf: Text -> Option<Time>, start: Option<Time>, end: Option<Time>,
                                       clients: seq<Client>, events: seq<Event>)
    requires |clients| == |events| + 1 && GoodClient(clients[0])
    requires forall i :: 0 <= i < |events| ==> Happens(stampOf, start, end, clients[i], events[i], clients[i + 1])
    ensures var first, last := clients[0], clients[|events|];
            && GoodClient(last)
            && Subsequence(Total(stampOf, start, end, first), Total(stampOf, start, end, last))
            && multiset(Total(stampOf, start, end, last))
               == multiset(Total(stampOf, start, end, first)) + Appended(stampOf, start, end, events)
            && (last.next == None ==> Total(stampOf, start, end, last) == last.got)
  {
    hide Happens, GoodClient, Total, Matches, Inserted;
    var n := |events|;
    if n == 0 {
      SubsequenceReflexive(Total(stampOf, start, end, clients[0]));
    } else {
      RunShowsAll(stampOf, start, end, clients[..n], events[..n - 1]);
      var c, d, e := clients[n - 1], clients[n], events[n - 1];
      EventKeepsTotal(stampOf, start, end, c, e, d);
      if e.AppendLineTo? && Matches(stampOf, start, end, e.line) {
        InsertedTotal(Total(stampOf, start, end, clients[0]),
                      Total(stampOf, start, end, c), Total(stampOf, start, end, d),
                      e.line, |c.got|);
      }
    }
    FinishedTotal(stampOf, start, end, clients[n]);
  }

  function Pages(events: seq<Event>): nat {
    if events == [] then 0
    else Pages(events[..|events| - 1]) + if events[|events| - 1].Page? then 1 else 0
  }

  /** Every page but a last one shows something, so a client that is not done
      has been shown at least as many lines as it asked for pages: it catches up
      with any store that grows by less than a page at a time. */
  lemma {:induction false} PagesMakeProgress(stampOf: Text -> Option<Time>, start: Option<Time>, end: Option<Time>,
                                             clients: seq<Client>, events: seq<Event>)
    requires |clients| == |events| + 1
    requires forall i :: 0 <= i < |events| ==> Happens(stampOf, start, end, clients[i], events[i], clients[i + 1])
    requires clients[|events|].next.Some?
    ensures |clients[0].got| + Pages(events) <= |clients[|events|].got|
  {
    hide FindChunk, Inside, DistinctChunks, ReachFrom;
    if events != [] {
      var n := |events| - 1;
      assert Happens(stampOf, start, end, clients[n], events[n], clients[n + 1]);
      PagesMakeProgress(stampOf, start, end, clients[..n + 1], events[..n]);
    }
  }

  lemma InsertedTotal(first: seq<Text>, before: seq<Text>, after: seq<Text>, x: Text, k: nat)
    requires Subsequence(first, before) && Inserted(before, after, x, k)
    ensures Subsequence(first, after) && multiset(after) == multiset(before) + multiset{x}
  {
    var i :| k <= i <= |before| && after == before[..i] + [x] + before[i..];
    SubsequenceInserted(first, before, i, x);
    assert before == before[..i] + before[i..];
  }

  lemma FinishedTotal(stampOf: Text -> Option<Time>, start: Option<Time>, end: Option<Time>, c: Client)
    ensures c.next == None ==> Total(stampOf, start, end, c) == c.got
  {
  }

  /** The first request's client has all matching lines ahead of it. */
  lemma FirstClient(stampOf: Text -> Option<Time>, start: Option<Time>, end: Option<Time>, chunks: seq<Chunk>)
    requires chunks != [] && DistinctChunks(chunks)
    ensures ReachFrom(stampOf, start, end, chunks, Some(CursorAt(chunks, 0, 0)))
         == Reach(stampOf, start, end, chunks, Start(0, 0))
  {
    FindsItself(chunks, 0, 0);
  }
}
