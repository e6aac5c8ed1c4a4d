/** Migration of single-file-per-pod logs into segments (storage/migration.go). */
module Migration {
  import opened Bytes
  import opened Lines
  import opened Seqs
  import opened Writer

  /** <logsRoot>/<namespace>/<pod>.log, until it is removed. */
  class LegacyFile {
    var content: Option<Text>
    constructor (content: Text)
      ensures this.content == Some(content)
    {
      this.content := Some(content);
    }
  }

  /** The lines of a legacy file that are worth keeping. */
  function NonBlank(ls: seq<Located>): seq<Text> {
    if ls == [] then []
    else if ls[0].text == [] then NonBlank(ls[1..])
    else [ls[0].text] + NonBlank(ls[1..])
  }

  function LegacyLines(content: Text): seq<Text> {
    NonBlank(LinesFrom(content, 0))
  }

  /** They are the lines of the file that are not empty, in order. */
  lemma LegacyLinesSpelledOut(content: Text)
    ensures LegacyLines(content) == Filter((line: Text) => line != [], Texts(LinesFrom(content, 0)))
  {
    hide LinesFrom;
    NonBlankIsFilter(LinesFrom(content, 0));
  }

  lemma {:induction false} NonBlankIsFilter(ls: seq<Located>)
    ensures NonBlank(ls) == Filter((line: Text) => line != [], Texts(ls))
  {
    hide Filter;
    var filled := (line: Text) => line != [];
    if ls == [] {
      FilterEmpty(filled);
    } else {
      NonBlankIsFilter(ls[1..]);
      assert Texts(ls) == [ls[0].text] + Texts(ls[1..]);
      FilterFirst(filled, ls[0].text, Texts(ls[1..]));
    }
  }

  /** Each line has its own synced copy in the segments. */
  ghost predicate KeptAt(files: Files, lines: seq<Text>, locs: seq<Location>) {
    && |locs| == |lines|
    && (forall i :: 0 <= i < |lines| ==> ReadsBack(files, locs[i], lines[i]) && Durable(files, locs[i]))
    && (forall i, j :: 0 <= i < j < |locs| ==> locs[i] != locs[j])
  }

  ghost predicate Kept(files: Files, lines: seq<Text>) {
    exists locs :: KeptAt(files, lines, locs)
  }

  /** A reader of the segment finds the copy as a line of its own. */
  predicate AsLine(files: Files, loc: Location, line: Text) {
    loc.path in files && Located(loc.offset, Capped(line)) in LinesFrom(files[loc.path].bytes, 0)
  }

  /** And readers find every copy as a line of its own. */
  ghost predicate KeptAsLines(files: Files, lines: seq<Text>) {
    exists locs :: KeptAt(files, lines, locs) && forall i :: 0 <= i < |lines| ==> AsLine(files, locs[i], lines[i])
  }

  /** No segment that got more bytes had been left with an unfinished line. */
  ghost predicate NoneUnfinished(a: Files, b: Files) {
    forall p :: BytesOf(b, p) != BytesOf(a, p) ==> Whole(BytesOf(a, p))
  }

  datatype Disk = Disk(legacy: Option<Text>, files: Files)

  /** What one migration run may do: leave the legacy file alone, or remove it
      once every line of it is kept, where readers find it unless a segment had
      been left with an unfinished line.  Segments only grow. */
  ghost predicate RunStep(a: Disk, b: Disk) {
    && Grows(a.files, b.files)
    && (b.legacy == a.legacy
        || (a.legacy.Some? && b.legacy == None && Kept(b.files, LegacyLines(a.legacy.value))
            && (NoneUnfinished(a.files, b.files) ==> KeptAsLines(b.files, LegacyLines(a.legacy.value)))))
  }

  /** A crash keeps what was synced, and possibly more. */
  ghost predicate CrashStep(a: Disk, b: Disk) {
    && b.legacy == a.legacy
    && forall p :: p in a.files && 0 < a.files[p].synced <= |a.files[p].bytes| ==>
         && p in b.files
         && a.files[p].synced <= b.files[p].synced
         && a.files[p].bytes[..a.files[p].synced] <= b.files[p].bytes
  }

  /** A copy stays where it is through runs and crashes, for readers too. */
  lemma CopyCarries(a: Disk, b: Disk, loc: Location, line: Text)
    requires RunStep(a, b) || CrashStep(a, b)
    requires WellFormed(a.files) && ReadsBack(a.files, loc, line) && Durable(a.files, loc)
    ensures ReadsBack(b.files, loc, line) && Durable(b.files, loc)
    ensures Plain(line) && AsLine(a.files, loc, line) ==> AsLine(b.files, loc, line)
  {
    hide LinesFrom, Capped;
    if CrashStep(a, b) {
      CopySurvives(a.files, b.files, loc, line);
    } else {
      ReadsBackGrows(a.files, b.files, loc, line);
    }
    if Plain(line) {
      CappedPlain(line);
      HeldIsLine(a.files[loc.path].bytes, loc.offset, Capped(line));
      HeldIsLine(b.files[loc.path].bytes, loc.offset, Capped(line));
      if loc.offset > 0 {
        SameByteBefore(a, b, loc);
      }
    }
  }

  lemma SameByteBefore(a: Disk, b: Disk, loc: Location)
    requires RunStep(a, b) || CrashStep(a, b)
    requires WellFormed(a.files) && Durable(a.files, loc) && 0 < loc.offset && loc.path in b.files
    requires loc.offset < |a.files[loc.path].bytes| && loc.offset < |b.files[loc.path].bytes|
    ensures a.files[loc.path].bytes[loc.offset - 1] == b.files[loc.path].bytes[loc.offset - 1]
  {
    var x, y := a.files[loc.path].bytes, b.files[loc.path].bytes;
    if CrashStep(a, b) {
      var n := a.files[loc.path].synced;
      assert x[..n][loc.offset - 1] == y[loc.offset - 1];
    }
  }

  lemma KeptCarries(a: Disk, b: Disk, lines: seq<Text>)
    requires RunStep(a, b) || CrashStep(a, b)
    requires WellFormed(a.files)
    ensures Kept(a.files, lines) ==> Kept(b.files, lines)
    ensures (forall line :: line in lines ==> Plain(line)) && KeptAsLines(a.files, lines) ==>
              KeptAsLines(b.files, lines)
  {
    hide RunStep, CrashStep, ReadsBack, Durable, AsLine, Plain;
    if Kept(a.files, lines) {
      var locs :| KeptAt(a.files, lines, locs);
      KeptAtCarries(a, b, lines, locs);
    }
    if (forall line :: line in lines ==> Plain(line)) && KeptAsLines(a.files, lines) {
      var locs :| KeptAt(a.files, lines, locs) && forall i :: 0 <= i < |lines| ==> AsLine(a.files, locs[i], lines[i]);
      KeptAtCarries(a, b, lines, locs);
    }
  }

  lemma KeptAtCarries(a: Disk, b: Disk, lines: seq<Text>, locs: seq<Location>)
    requires RunStep(a, b) || CrashStep(a, b)
    requires WellFormed(a.files) && KeptAt(a.files, lines, locs)
    ensures KeptAt(b.files, lines, locs)
    ensures forall i :: 0 <= i < |lines| && Plain(lines[i]) && AsLine(a.files, locs[i], lines[i]) ==>
              AsLine(b.files, locs[i], lines[i])
  {
    hide RunStep, CrashStep, ReadsBack, Durable, AsLine, Plain;
    forall i | 0 <= i < |lines|
      ensures ReadsBack(b.files, locs[i], lines[i]) && Durable(b.files, locs[i])
      ensures Plain(lines[i]) && AsLine(a.files, locs[i], lines[i]) ==> AsLine(b.files, locs[i], lines[i])
    {
      CopyCarries(a, b, locs[i], lines[i]);
    }
  }

  lemma CopySurvives(a: Files, b: Files, loc: Location, line: Text)
    requires WellFormed(a) && ReadsBack(a, loc, line) && Durable(a, loc)
    requires loc.path in b && a[loc.path].synced <= b[loc.path].synced
    requires a[loc.path].bytes[..a[loc.path].synced] <= b[loc.path].bytes
    ensures ReadsBack(b, loc, line) && Durable(b, loc)
  {
    var n := a[loc.path].synced;
    var x, y := a[loc.path].bytes, b[loc.path].bytes;
    assert forall i :: 0 <= i < n ==> y[i] == x[..n][i] == x[i];
    assert y[loc.offset..loc.offset + loc.length + 1] == x[loc.offset..loc.offset + loc.length + 1];
  }

  lemma {:induction false} NonBlankPlain(ls: seq<Located>)
    requires forall l: Located :: l in ls ==> Plain(l.text)
    ensures forall line :: line in NonBlank(ls) ==> Plain(line)
  {
    hide Plain;
    if ls != [] {
      NonBlankPlain(ls[1..]);
    }
  }

  lemma LegacyLinesPlain(content: Text)
    ensures forall line :: line in LegacyLines(content) ==> Plain(line)
  {
    hide LinesFrom, Plain, NonBlank;
    LinesArePlain(content, 0);
    NonBlankPlain(LinesFrom(content, 0));
  }

  /** The run that removed the legacy file found no unfinished line in its way. */
  ghost predicate CleanRemoval(disks: seq<Disk>) {
    forall i :: 0 <= i < |disks| - 1 && disks[i].legacy.Some? && disks[i + 1].legacy.None? ==>
                  NoneUnfinished(disks[i].files, disks[i + 1].files)
  }

  /** Over any sequence of runs and crashes, every line of the legacy file is
      in the legacy file or in a synced copy of its own, and readers find each
      copy as a line if no segment the removing run wrote to had been left with
      an unfinished one. */
  lemma {:induction false} NeverLost(disks: seq<Disk>, content: Text)
    requires disks != [] && disks[0].legacy == Some(content)
    requires forall i :: 0 <= i < |disks| ==> WellFormed(disks[i].files)
    requires forall i :: 0 <= i < |disks| - 1 ==> RunStep(disks[i], disks[i + 1]) || CrashStep(disks[i], disks[i + 1])
    ensures var last := disks[|disks| - 1];
            last.legacy == Some(content) || (last.legacy == None && Kept(last.files, LegacyLines(content)))
    ensures var last := disks[|disks| - 1];
            CleanRemoval(disks) && last.legacy == None ==> KeptAsLines(last.files, LegacyLines(content))
  {
    hide LegacyLines, Kept, KeptAsLines, NoneUnfinished, Plain;
    var n := |disks| - 1;
    if n > 0 {
      var before := disks[..n];
      NeverLost(before, content);
      var a, b := disks[n - 1], disks[n];
      assert before[n - 1] == a;
      assert RunStep(a, b) || CrashStep(a, b);
      if CleanRemoval(disks) {
        CleanBefore(disks);
      }
      if a.legacy == None {
        LegacyLinesPlain(content);
        KeptCarries(a, b, LegacyLines(content));
      }
    }
  }

  lemma CleanBefore(disks: seq<Disk>)
    requires |disks| > 1 && CleanRemoval(disks)
    ensures CleanRemoval(disks[..|disks| - 1])
    ensures var a, b := disks[|disks| - 2], disks[|disks| - 1];
            a.legacy.Some? && b.legacy.None? ==> NoneUnfinished(a.files, b.files)
  {
    hide NoneUnfinished;
    var before := disks[..|disks| - 1];
    forall i | 0 <= i < |before| - 1 && before[i].legacy.Some? && before[i + 1].legacy.None?
      ensures NoneUnfinished(before[i].files, before[i + 1].files)
    {
      assert before[i] == disks[i] && before[i + 1] == disks[i + 1];
    }
  }

  // ----- One run -----

  /** Everything a writer accepted, and where. */
  function AcceptedLines(h: History): seq<Text> {
    match h
    case Fresh => []
    case After(before, c) =>
      if c.outcome.Accepted? then AcceptedLines(before) + [c.line] else AcceptedLines(before)
  }

  function AcceptedAt(h: History): (locs: seq<Location>)
    ensures |locs| == |AcceptedLines(h)|
  {
    match h
    case Fresh => []
    case After(before, c) =>
      if c.outcome.Accepted? then AcceptedAt(before) + [c.outcome.loc] else AcceptedAt(before)
  }

  /** The times they were filed by. */
  function AcceptedStamps(h: History): (stamps: seq<Time>)
    ensures |stamps| == |AcceptedLines(h)|
  {
    match h
    case Fresh => []
    case After(before, c) =>
      if c.outcome.Accepted? then AcceptedStamps(before) + [c.stamp] else AcceptedStamps(before)
  }

  lemma {:induction false} FiledByStamp(files: Files, h: History, dir: Dir, formatDate: int -> Text)
    requires Placed(files, h, dir, formatDate)
    ensures forall i :: 0 <= i < |AcceptedAt(h)| ==>
              AcceptedAt(h)[i].path == Path(dir, formatDate(DayOf(AcceptedStamps(h)[i])))
  {
    hide ReadsBack, Beyond;
    if h.After? {
      FiledByStamp(files, h.before, dir, formatDate);
    }
  }

  lemma {:induction false} BeyondDiffers(h: History, loc: Location)
    requires Beyond(h, loc)
    ensures loc !in AcceptedAt(h)
  {
    if h.After? {
      BeyondDiffers(h.before, loc);
    }
  }

  /** A clean Close leaves every accepted line kept. */
  lemma {:induction false} AcceptedKept(files: Files, h: History, dir: Dir, formatDate: int -> Text)
    requires Placed(files, h, dir, formatDate) && Safe(files, h, None)
    ensures KeptAt(files, AcceptedLines(h), AcceptedAt(h))
  {
    if h.After? {
      AcceptedKept(files, h.before, dir, formatDate);
      if h.call.outcome.Accepted? {
        BeyondDiffers(h.before, h.call.outcome.loc);
      }
    }
  }

  // ----- Where readers find the copies -----

  /** What was accepted into `path`, as stored. */
  function WrittenTo(h: History, path: Path): Text {
    match h
    case Fresh => []
    case After(before, c) =>
      WrittenTo(before, path)
      + if c.outcome.Accepted? && c.outcome.loc.path == path then Stored(Capped(c.line)) else []
  }

  /** The accepted lines lie one after the other from the old ends on. */
  predicate OneByOne(start: Files, h: History) {
    match h
    case Fresh => true
    case After(before, c) =>
      && OneByOne(start, before)
      && (c.outcome.Accepted? ==>
            var loc := c.outcome.loc;
            loc.offset == |BytesOf(start, loc.path)| + |WrittenTo(before, loc.path)|)
  }

  /** Nothing but accepted lines has been written since. */
  ghost predicate JustWritten(start: Files, files: Files, h: History) {
    OneByOne(start, h) && forall p :: BytesOf(files, p) == BytesOf(start, p) + WrittenTo(h, p)
  }

  lemma WrittenWhole(h: History, path: Path)
    ensures Whole(WrittenTo(h, path))
  {
    hide Capped;
    if h.After? {
      var before, more := WrittenTo(h.before, path), Stored(Capped(h.call.line));
      WrittenWhole(h.before, path);
      assert (before + more)[|before + more| - 1] == NL;
      assert before + [] == before;
    }
  }

  /** One accepted line starts a line of the file, unless it is the first there
      and the file had an unfinished one. */
  lemma AcceptedStartsLine(start: Files, files: Files, h: History, c: Call)
    requires OneByOne(start, After(h, c)) && c.outcome.Accepted? && Plain(c.line)
    requires ReadsBack(files, c.outcome.loc, c.line)
    requires var p := c.outcome.loc.path; BytesOf(start, p) + WrittenTo(h, p) <= BytesOf(files, p)
    ensures var p := c.outcome.loc.path;
            AsLine(files, c.outcome.loc, c.line) <==> WrittenTo(h, p) != [] || Whole(BytesOf(start, p))
  {
    hide LinesFrom, Capped, WrittenTo;
    var loc := c.outcome.loc;
    var b, had := files[loc.path].bytes, BytesOf(start, loc.path) + WrittenTo(h, loc.path);
    CappedPlain(c.line);
    HeldIsLine(b, loc.offset, Capped(c.line));
    WrittenWhole(h, loc.path);
    assert loc.offset == |had|;
    assert had != [] ==> b[|had| - 1] == had[|had| - 1];
  }

  /** Readers find every copy as a line if and only if no segment that was
      written to had been left with an unfinished one. */
  lemma {:induction false} CopiesAreLinesExactly(start: Files, files: Files, h: History)
    requires OneByOne(start, h) && forall line :: line in AcceptedLines(h) ==> Plain(line)
    requires forall i :: 0 <= i < |AcceptedLines(h)| ==> ReadsBack(files, AcceptedAt(h)[i], AcceptedLines(h)[i])
    requires forall p :: BytesOf(start, p) + WrittenTo(h, p) <= BytesOf(files, p)
    ensures (forall i :: 0 <= i < |AcceptedAt(h)| ==> AsLine(files, AcceptedAt(h)[i], AcceptedLines(h)[i]))
       <==> forall p :: WrittenTo(h, p) != [] ==> Whole(BytesOf(start, p))
  {
    hide LinesFrom, Capped, ReadsBack, AsLine, Plain, Whole, Stored;
    if h.After? {
      var before, c := h.before, h.call;
      forall p
        ensures BytesOf(start, p) + WrittenTo(before, p) <= BytesOf(files, p)
      {
        WrittenGrows(h, p);
        PrefixTransitive(BytesOf(start, p) + WrittenTo(before, p), BytesOf(start, p) + WrittenTo(h, p),
                         BytesOf(files, p));
      }
      if c.outcome.Accepted? {
        LastAccepted(h);
        CopiesAreLinesExactly(start, files, before);
        AcceptedStartsLine(start, files, before, c);
        WrittenSplits(h);
      } else {
        NotAccepted(h);
        CopiesAreLinesExactly(start, files, before);
      }
    }
  }

  lemma NotAccepted(h: History)
    requires h.After? && !h.call.outcome.Accepted?
    ensures AcceptedLines(h) == AcceptedLines(h.before) && AcceptedAt(h) == AcceptedAt(h.before)
    ensures forall p :: WrittenTo(h, p) == WrittenTo(h.before, p)
  {
    hide Capped, Stored;
  }

  lemma WrittenGrows(h: History, p: Path)
    requires h.After?
    ensures WrittenTo(h.before, p) <= WrittenTo(h, p)
  {
    hide Capped, Stored;
  }

  lemma WrittenSplits(h: History)
    requires h.After? && h.call.outcome.Accepted?
    ensures forall p :: WrittenTo(h, p) != [] <==> WrittenTo(h.before, p) != [] || p == h.call.outcome.loc.path
  {
    hide Capped;
  }

  lemma LastAccepted(h: History)
    requires h.After? && h.call.outcome.Accepted?
    ensures AcceptedLines(h) == AcceptedLines(h.before) + [h.call.line]
    ensures AcceptedAt(h) == AcceptedAt(h.before) + [h.call.outcome.loc]
    ensures forall i :: 0 <= i < |AcceptedLines(h.before)| ==>
              AcceptedLines(h)[i] == AcceptedLines(h.before)[i] && AcceptedAt(h)[i] == AcceptedAt(h.before)[i]
    ensures AcceptedLines(h)[|AcceptedLines(h.before)|] == h.call.line
    ensures AcceptedAt(h)[|AcceptedLines(h.before)|] == h.call.outcome.loc
  {
  }

  /** A removal after which no reader finds the line: an earlier run had left one
      byte of it in the segment, and the copy runs on from that. */
  lemma CopyRunsOn() returns (a: Disk, b: Disk, p: Path)
    ensures RunStep(a, b) && a.legacy == Some([0x61, 0x62]) && b.legacy == None
    ensures LegacyLines([0x61, 0x62]) == [[0x61, 0x62]] && b.files.Keys == {p}
    ensures forall l: Located :: l in LinesFrom(b.files[p].bytes, 0) ==> l.text != [0x61, 0x62]
  {
    hide LinesFrom, Kept, KeptAsLines;
    p := Path(Dir([], [], []), []);
    var line: Text := [0x61, 0x62];
    var left, after: Text := [0x61], [0x61, 0x61, 0x62, NL];
    a, b := Disk(Some(line), map[p := File(left, 1)]), Disk(None, map[p := File(after, 4)]);
    LoneLine(line, line);
    assert LegacyLines(line) == [line];
    KeptPastOne(b.files, p, line, after);
    assert left == after[..1];
    assert BytesOf(b.files, p) != BytesOf(a.files, p) && !Whole(BytesOf(a.files, p));
    LoneLine(after, [0x61, 0x61, 0x62]);
  }

  lemma KeptPastOne(files: Files, p: Path, line: Text, bytes: Text)
    requires p in files && files[p] == File(bytes, |bytes|) && |line| <= MAX_LINE_BYTES
    requires |bytes| == |line| + 2 && bytes[1..] == Stored(line)
    ensures Kept(files, [line])
  {
    var copy := Location(p, 1, |line|);
    assert bytes[1..|line| + 2] == bytes[1..];
    assert KeptAt(files, [line], [copy]);
  }

  /** A file of one line, finished or not. */
  lemma LoneLine(b: Text, line: Text)
    requires b != [] && OneLine(b) && TrimEol(b) == line
    ensures LinesFrom(b, 0) == [Located(0, line)]
  {
    hide LinesFrom, TrimEol;
    assert b[0..] == b;
    OneLineEnd(b, 0, b);
    OnlyLine(b, 0, b);
  }

  datatype Ending = Migrated | ReadFailed | WriteFailed | CloseFailed | RemoveFailed | Died

  datatype Tick = Tick(now: Time, io: Io)

  ghost predicate Clock(ticks: seq<Tick>) {
    && (forall i :: 0 <= i < |ticks| ==> ZERO_TIME <= ticks[i].now)
    && (forall i, j :: 0 <= i < j < |ticks| ==> ticks[i].now <= ticks[j].now)
  }

  /** Every file operation goes well. */
  ghost predicate Smooth(ticks: seq<Tick>) {
    forall i :: 0 <= i < |ticks| ==> AllGood(ticks[i].io)
  }

  lemma NonBlankStep(data: Text, pos: nat, done: seq<Text>)
    requires pos < |data|
    ensures var end := LineEnd(data, pos);
            var line := TrimEol(data[pos..end]);
            done + NonBlank(LinesFrom(data, pos))
            == (if line == [] then done else done + [line]) + NonBlank(LinesFrom(data, end))
  {
    hide LinesFrom, TrimEol, NonBlank;
    FirstLine(data, pos);
    var line, rest := TrimEol(data[pos..LineEnd(data, pos)]), LinesFrom(data, LineEnd(data, pos));
    NonBlankFirst(Located(pos, line), rest);
    assert (done + [line]) + NonBlank(rest) == done + ([line] + NonBlank(rest));
  }

  lemma NonBlankFirst(l: Located, rest: seq<Located>)
    ensures NonBlank([l] + rest) == if l.text == [] then NonBlank(rest) else [l.text] + NonBlank(rest)
  {
    assert ([l] + rest)[1..] == rest;
  }

  lemma StaysJustWritten(start: Files, a: Files, b: Files, h: History, c: Call)
    requires c.outcome.Accepted? && c.outcome.loc.offset == |BytesOf(a, c.outcome.loc.path)|
    requires Extended(a, b, c.outcome.loc.path, Stored(Capped(c.line)))
    ensures JustWritten(start, a, h) ==> JustWritten(start, b, After(h, c))
  {
    hide Capped, Stored, BytesOf;
    if JustWritten(start, a, h) {
      forall p
        ensures BytesOf(b, p) == BytesOf(start, p) + WrittenTo(After(h, c), p)
      {
        assert BytesOf(a, p) == BytesOf(start, p) + WrittenTo(h, p);
        StaysAt(start, a, b, h, c, p);
      }
    }
  }

  lemma StaysAt(start: Files, a: Files, b: Files, h: History, c: Call, p: Path)
    requires c.outcome.Accepted? && Extended(a, b, c.outcome.loc.path, Stored(Capped(c.line)))
    requires BytesOf(a, p) == BytesOf(start, p) + WrittenTo(h, p)
    ensures BytesOf(b, p) == BytesOf(start, p) + WrittenTo(After(h, c), p)
  {
    hide Capped, Stored, BytesOf;
    var x, y, z := BytesOf(start, p), WrittenTo(h, p), Stored(Capped(c.line));
    assert (x + y) + z == x + (y + z);
    assert y + [] == y;
  }

  /** Writes one migrated line, giving up on the whole file if that fails. */
  method WriteOrAbort(w: SegmentWriter, line: Text, stamp: Time, tick: Tick, ghost start: Files) returns (ok: bool)
    requires w.Valid() && w.careful && ZERO_TIME <= tick.now && LastNow(w.history) <= tick.now
    modifies w, w.store
    ensures w.Valid() && Grows(old(w.store.files), w.store.files)
    ensures ok ==> w.careful && LastNow(w.history) == tick.now
    ensures ok ==> AcceptedLines(w.history) == AcceptedLines(old(w.history)) + [line]
    ensures ok ==> AcceptedStamps(w.history) == AcceptedStamps(old(w.history)) + [stamp]
    ensures ok ==> WindowEnd(w.history) == WindowEnd(old(w.history))
    ensures ok && old(JustWritten(start, w.store.files, w.history)) ==> JustWritten(start, w.store.files, w.history)
    ensures AllGood(tick.io) && WindowEnd(old(w.history)) <= tick.now ==> ok
  {
    ghost var files, h := w.store.files, w.history;
    var _, _, _, written, outcome := w.WriteWithLocation(tick.now, stamp, line, tick.io);
    ok := written;
    if ok {
      StaysJustWritten(start, files, w.store.files, h, Call(tick.now, stamp, line, outcome));
    } else {
      ghost var before := w.store.files;
      var _ := w.Close(tick.io);
      GrowsTransitive(old(w.store.files), before, w.store.files, w.dir);
    }
  }

  /** The lines so far were filed by their own times, read at these ticks. */
  ghost predicate OwnStamps(h: History, stamp: (Text, Time) -> Time, ticks: seq<Tick>) {
    && |AcceptedLines(h)| <= |ticks|
    && forall i :: 0 <= i < |AcceptedLines(h)| ==> AcceptedStamps(h)[i] == stamp(AcceptedLines(h)[i], ticks[i].now)
  }

  lemma OwnStampsStep(a: History, b: History, line: Text, stamp: (Text, Time) -> Time, ticks: seq<Tick>)
    requires OwnStamps(a, stamp, ticks) && |AcceptedLines(a)| < |ticks|
    requires AcceptedLines(b) == AcceptedLines(a) + [line]
    requires AcceptedStamps(b) == AcceptedStamps(a) + [stamp(line, ticks[|AcceptedLines(a)|].now)]
    ensures OwnStamps(b, stamp, ticks)
  {
  }

  lemma NothingYet(start: Files, data: Text, stamp: (Text, Time) -> Time, ticks: seq<Tick>)
    ensures AcceptedLines(Fresh) == [] && WindowEnd(Fresh) == ZERO_TIME && LastNow(Fresh) == ZERO_TIME
    ensures OwnStamps(Fresh, stamp, ticks) && JustWritten(start, start, Fresh) && Grows(start, start)
    ensures LegacyLines(data) == AcceptedLines(Fresh) + NonBlank(LinesFrom(data, 0))
    ensures NonBlank(LinesFrom(data, |data|)) == []
  {
    assert NonBlank([]) == [];
    hide LinesFrom, NonBlank, BytesOf;
    assert [] + LegacyLines(data) == LegacyLines(data);
  }

  /** The loop over the legacy file's lines; `left` is how it ended early. */
  method CopyLines(w: SegmentWriter, data: Text, stamp: (Text, Time) -> Time, ticks: seq<Tick>)
    returns (left: Option<Ending>)
    requires w.Valid() && w.careful && w.history == Fresh && Clock(ticks)
    modifies w, w.store
    ensures w.Valid() && Grows(old(w.store.files), w.store.files)
    ensures left == None ==> w.careful && AcceptedLines(w.history) == LegacyLines(data)
    ensures left == None ==> OwnStamps(w.history, stamp, ticks)
    ensures left == None ==> JustWritten(old(w.store.files), w.store.files, w.history)
    ensures left.Some? ==> left.value == Died || left.value == WriteFailed
    ensures left == Some(Died) ==> |ticks| < |LegacyLines(data)|
    ensures left == Some(WriteFailed) ==> !Smooth(ticks)
  {
    hide LinesFrom, OwnStamps, JustWritten, AcceptedLines, AcceptedStamps, NonBlank, LegacyLines, Grows, WindowEnd,
         LastNow, TrimEol;
    var pos, used := 0, 0;
    NothingYet(w.store.files, data, stamp, ticks);
    while pos < |data|
      invariant 0 <= pos <= |data| && 0 <= used <= |ticks|
      invariant w.Valid() && w.careful && Grows(old(w.store.files), w.store.files)
      invariant forall i :: used <= i < |ticks| ==> LastNow(w.history) <= ticks[i].now
      invariant WindowEnd(w.history) == ZERO_TIME && used == |AcceptedLines(w.history)|
      invariant OwnStamps(w.history, stamp, ticks)
      invariant LegacyLines(data) == AcceptedLines(w.history) + NonBlank(LinesFrom(data, pos))
      invariant JustWritten(old(w.store.files), w.store.files, w.history)
    {
      var end := LineEnd(data, pos);
      var line := TrimEol(data[pos..end]);
      NonBlankStep(data, pos, AcceptedLines(w.history));
      if line != [] {
        if used == |ticks| {
          return Some(Died);
        }
        ghost var before, h := w.store.files, w.history;
        var ok := WriteOrAbort(w, line, stamp(line, ticks[used].now), ticks[used], old(w.store.files));
        GrowsTransitive(old(w.store.files), before, w.store.files, w.dir);
        if !ok {
          return Some(WriteFailed);
        }
        OwnStampsStep(h, w.history, line, stamp, ticks);
        used := used + 1;
      }
      pos := end;
    }
    assert AcceptedLines(w.history) + [] == AcceptedLines(w.history);
    left := None;
  }

  /** The same in terms of the files before and after a run. */
  lemma CopiesFound(start: Files, written: Files, files: Files, h: History)
    requires JustWritten(start, written, h) && SameBytes(written, files)
    requires KeptAt(files, AcceptedLines(h), AcceptedAt(h)) && forall line :: line in AcceptedLines(h) ==> Plain(line)
    ensures (forall i :: 0 <= i < |AcceptedLines(h)| ==> AsLine(files, AcceptedAt(h)[i], AcceptedLines(h)[i]))
       <==> NoneUnfinished(start, files)
    ensures NoneUnfinished(start, files) ==> KeptAsLines(files, AcceptedLines(h))
  {
    hide LinesFrom, Capped, ReadsBack, AsLine, Plain, Whole, WrittenTo, AcceptedLines, AcceptedAt, OneByOne, BytesOf;
    forall p
      ensures BytesOf(files, p) == BytesOf(start, p) + WrittenTo(h, p)
      ensures BytesOf(files, p) != BytesOf(start, p) <==> WrittenTo(h, p) != []
    {
      assert BytesOf(files, p) == BytesOf(written, p);
    }
    CopiesAreLinesExactly(start, files, h);
  }

  /** migrateLegacyPodFile.  `ticks` are the clock readings and file-operation
      answers the writes meet in turn; when they run out the process dies there.
      `readable` bytes come back before a read error, if there is one; `copies`
      are where the lines went. */
  method MigrateLegacyPodFile(store: LogStore, legacy: LegacyFile, dir: Dir, formatDate: int -> Text,
                              stamp: (Text, Time) -> Time, ticks: seq<Tick>, readable: Option<nat>,
                              closing: Io, removeOk: bool) returns (ending: Ending, ghost copies: seq<Location>)
    requires legacy.content.Some? && WellFormed(store.files) && Clock(ticks)
    modifies store, legacy
    ensures WellFormed(store.files)
    ensures RunStep(Disk(old(legacy.content), old(store.files)), Disk(legacy.content, store.files))
    ensures legacy.content == None <==> ending == Migrated
    ensures ending == Migrated ==>
              var lines := LegacyLines(old(legacy.content.value));
              && KeptAt(store.files, lines, copies)
              && |lines| <= |ticks|
              && (forall i :: 0 <= i < |lines| ==>
                    copies[i].path == Path(dir, formatDate(DayOf(stamp(lines[i], ticks[i].now)))))
              && ((forall i :: 0 <= i < |lines| ==> AsLine(store.files, copies[i], lines[i]))
                  <==> NoneUnfinished(old(store.files), store.files))
    ensures ending == RemoveFailed ==> Kept(store.files, LegacyLines(legacy.content.value))
    ensures ending == WriteFailed ==> !Smooth(ticks)
    ensures ending == ReadFailed ==> readable.Some?
    ensures ending == CloseFailed ==> !(closing.syncOk && closing.closeOk)
    ensures ending == RemoveFailed ==> !removeOk
    ensures var whole := readable == None && closing.syncOk && closing.closeOk && removeOk;
            Smooth(ticks) && |LegacyLines(old(legacy.content.value))| <= |ticks| && whole ==> ending == Migrated
  {
    hide Grows, LinesFrom, NonBlank, JustWritten, AcceptedLines, AcceptedAt, AcceptedStamps, Placed, Safe, KeptAt,
         AsLine, NoneUnfinished, Plain, AllGood;
    copies := [];
    var data := legacy.content.value;
    if readable.Some? && readable.value < |data| {
      data := data[..readable.value];
    }
    var w := new SegmentWriter(store, dir, formatDate, false);
    var left := CopyLines(w, data, stamp, ticks);
    if left.Some? {
      return left.value, [];
    }
    ghost var before := store.files;
    var closed := w.Close(closing);
    GrowsTransitive(old(store.files), before, store.files, dir);
    if readable.Some? {
      return ReadFailed, [];
    }
    if !closed {
      return CloseFailed, [];
    }
    AcceptedKept(store.files, w.history, dir, formatDate);
    copies := AcceptedAt(w.history);
    FiledByStamp(store.files, w.history, dir, formatDate);
    LegacyLinesPlain(data);
    CopiesFound(old(store.files), before, store.files, w.history);
    if !removeOk {
      return RemoveFailed, copies;
    }
    legacy.content := None;
    ending := Migrated;
  }
}
