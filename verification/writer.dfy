/** The log store and the segment writer (storage/writer.go). */
module Writer {
  import opened Bytes
  import opened Lines

  /** <logsRoot>/<namespace>/<pod>/<container> */
  datatype Dir = Dir(namespace: Text, pod: Text, container: Text)

  /** <dir>/<segment>.log */
  datatype Path = Path(dir: Dir, segment: Text)

  /** A file's bytes, and how many of them a completed fsync covers. */
  datatype File = File(bytes: Text, synced: nat)

  type Files = map<Path, File>

  /** LOGS_ROOT, and the process-wide set of segments some writer has open. */
  class LogStore {
    var files: Files
    var openSegments: set<Path>

    constructor ()
      ensures files == map[] && openSegments == {}
    {
      files, openSegments := map[], {};
    }
  }

  function BytesOf(logs: Files, path: Path): Text {
    if path in logs then logs[path].bytes else []
  }

  ghost predicate WellFormed(files: Files) {
    forall p :: p in files ==> files[p].synced <= |files[p].bytes|
  }

  /** Files are only created and appended to, and syncs are never undone. */
  ghost predicate Grows(a: Files, b: Files) {
    forall p :: p in a ==> p in b && a[p].bytes <= b[p].bytes && a[p].synced <= b[p].synced
  }

  /** Nothing outside `dir` changed. */
  ghost predicate Elsewhere(a: Files, b: Files, dir: Dir) {
    && (forall p :: p in a && p.dir != dir ==> p in b && b[p] == a[p])
    && (forall p :: p in b && p.dir != dir ==> p in a)
  }

  ghost predicate OpenElsewhere(a: set<Path>, b: set<Path>, dir: Dir) {
    forall p: Path :: p.dir != dir ==> (p in a <==> p in b)
  }

  datatype Location = Location(path: Path, offset: nat, length: nat)

  /** The bytes at `loc` are exactly the stored form of `line`. */
  predicate ReadsBack(files: Files, loc: Location, line: Text) {
    && loc.path in files
    && loc.offset + loc.length < |files[loc.path].bytes|
    && files[loc.path].bytes[loc.offset..loc.offset + loc.length + 1] == Stored(Capped(line))
    && loc.length == |Capped(line)|
  }

  lemma ReadsBackGrows(a: Files, b: Files, loc: Location, line: Text)
    requires Grows(a, b) && ReadsBack(a, loc, line)
    ensures ReadsBack(b, loc, line)
  {
    var n := loc.offset + loc.length + 1;
    var x, y := a[loc.path].bytes, b[loc.path].bytes;
    assert x == y[..|x|];
    assert y[loc.offset..n] == x[loc.offset..n];
  }

  /** An fsync covers the whole line. */
  predicate Durable(files: Files, loc: Location) {
    loc.path in files && loc.offset + loc.length < files[loc.path].synced
  }

  /** How the operating system answers the file operations of one call.
      `written` is how many bytes a failing write still puts in the file. */
  datatype Io = Io(syncOk: bool, closeOk: bool, mkdirOk: bool, openOk: bool, seekOk: bool, writeOk: bool, written: nat)

  /** Every answer is good. */
  predicate AllGood(io: Io) {
    io.syncOk && io.closeOk && io.mkdirOk && io.openOk && io.seekOk && io.writeOk
  }

  /** The operations a write to `date` attempts, with this file open, succeed:
      the rollover's if the file is another one, then the seek and the write. */
  predicate Succeeds(f: Option<Path>, segmentDate: Text, date: Text, io: Io) {
    && (f == None || date != segmentDate ==> RollSucceeds(f, io))
    && io.seekOk && io.writeOk
  }

  predicate RollSucceeds(f: Option<Path>, io: Io) {
    (f.Some? ==> io.syncOk && io.closeOk) && io.mkdirOk && io.openOk
  }

  /** What an attempted write of `payload` adds to the file of `date`: nothing if
      the rollover or the seek fails, else all of it, or the part that a failing
      write still puts there. */
  function Added(f: Option<Path>, segmentDate: Text, date: Text, io: Io, payload: Text): Text {
    if (f == None || date != segmentDate) && !RollSucceeds(f, io) then [] else Written(io, payload)
  }

  function Written(io: Io, payload: Text): Text {
    if !io.seekOk then [] else if io.writeOk then payload else Clip(io.written, payload)
  }

  /** The file at `path` has `x` more at its end, and no other has other bytes. */
  ghost predicate Extended(a: Files, b: Files, path: Path, x: Text) {
    && BytesOf(b, path) == BytesOf(a, path) + x
    && forall p :: p != path ==> BytesOf(b, p) == BytesOf(a, p)
  }

  ghost predicate SameBytes(a: Files, b: Files) {
    forall p :: BytesOf(b, p) == BytesOf(a, p)
  }

  lemma ExtendedReadsBack(a: Files, b: Files, loc: Location, line: Text)
    requires Extended(a, b, loc.path, Stored(Capped(line))) && loc.path in b
    requires loc.offset == |BytesOf(a, loc.path)| && loc.length == |Capped(line)|
    ensures ReadsBack(b, loc, line)
  {
    hide Capped;
    var x := Stored(Capped(line));
    assert b[loc.path].bytes[loc.offset..loc.offset + |x|] == x;
  }

  lemma Unchanged(a: Files)
    ensures SameBytes(a, a)
  {
  }

  lemma SameAt(a: Files, b: Files, path: Path)
    requires SameBytes(a, b)
    ensures BytesOf(a, path) == BytesOf(b, path)
  {
  }

  lemma SameThenExtended(a: Files, b: Files, c: Files, path: Path, x: Text)
    requires SameBytes(a, b)
    ensures Extended(b, c, path, x) ==> Extended(a, c, path, x)
    ensures Extended(a, b, path, [])
  {
  }

  const MIN_WRITE_BACKOFF := SECOND
  const MAX_WRITE_BACKOFF := 30 * SECOND

  /** What became of one offered line. */
  datatype Outcome =
    | Accepted(loc: Location)  // stored
    | Failed                   // attempted, and dropped
    | Refused                  // dropped inside the backoff window

  datatype Call = Call(now: Time, stamp: Time, line: Text, outcome: Outcome)

  /** One call of the drop-state hook. */
  datatype HookCall = Started(dropped: nat) | Recovered(dropped: nat)

  /** The calls made on a writer, oldest innermost. */
  datatype History = Fresh | After(before: History, call: Call)

  // ----- The books, as functions of the calls so far -----

  function Offered(h: History): nat {
    match h case Fresh => 0 case After(before, _) => Offered(before) + 1
  }

  function Accepts(h: History): nat {
    match h
    case Fresh => 0
    case After(before, c) => Accepts(before) + if c.outcome.Accepted? then 1 else 0
  }

  /** Lines dropped since the last accepted one. */
  function Dropped(h: History): nat {
    match h
    case Fresh => 0
    case After(before, c) => if c.outcome.Accepted? then 0 else Dropped(before) + 1
  }

  /** Failed attempts since the last accepted line. */
  function Failures(h: History): nat {
    match h
    case Fresh => 0
    case After(before, c) =>
      if c.outcome.Accepted? then 0 else Failures(before) + if c.outcome.Failed? then 1 else 0
  }

  function LastNow(h: History): Time {
    match h case Fresh => ZERO_TIME case After(_, c) => c.now
  }

  function Doubled(k: nat): nat {
    if k == 0 then MIN_WRITE_BACKOFF else 2 * Doubled(k - 1)
  }

  /** The window the k-th consecutive failure opens: min * 2^(k-1), capped. */
  function Window(k: nat): nat
    requires k > 0
  {
    if Doubled(k - 1) < MAX_WRITE_BACKOFF then Doubled(k - 1) else MAX_WRITE_BACKOFF
  }

  /** When the window opened by the last failed attempt ends. */
  function WindowEnd(h: History): Time {
    match h
    case Fresh => ZERO_TIME
    case After(before, c) => if c.outcome.Failed? then c.now + Window(Failures(h)) else WindowEnd(before)
  }

  /** The calls of the hook, in order. */
  function HookTrace(h: History): seq<HookCall> {
    match h
    case Fresh => []
    case After(before, c) =>
      match c.outcome
      case Accepted(_) => if Dropped(before) > 0 then HookTrace(before) + [Recovered(Dropped(before))]
          else HookTrace(before)
      case Failed => if Dropped(before) == 0 then HookTrace(before) + [Started(1)] else HookTrace(before)
      case Refused => HookTrace(before)
  }

  /** The clock is monotone, and a line is refused exactly inside a window. */
  predicate Consistent(h: History) {
    match h
    case Fresh => true
    case After(before, c) =>
      && Consistent(before)
      && LastNow(before) <= c.now
      && (c.outcome.Refused? <==> Failures(before) > 0 && c.now < WindowEnd(before))
  }

  /** Failures, not just drops, begin every outage. */
  lemma {:induction false} DroppedMeansFailed(h: History)
    requires Consistent(h)
    ensures Dropped(h) > 0 <==> Failures(h) > 0
  {
    if h.After? {
      DroppedMeansFailed(h.before);
    }
  }

  /** Drops reported by recoveries. */
  function Reported(t: seq<HookCall>): nat {
    if t == [] then 0
    else Reported(t[..|t| - 1]) + match t[|t| - 1] case Started(_) => 0 case Recovered(n) => n
  }

  predicate OutageOpen(t: seq<HookCall>) {
    t != [] && t[|t| - 1].Started?
  }

  /** Starts and recoveries alternate, a start first; a start reports the one
      line dropped so far, and a recovery reports at least one. */
  predicate Alternates(t: seq<HookCall>) {
    t == [] ||
    var before, c := t[..|t| - 1], t[|t| - 1];
    && Alternates(before)
    && if OutageOpen(before) then c.Recovered? && c.dropped > 0 else c == Started(1)
  }

  /** Outage accounting over any run: every offered line is accepted, or
      reported by a recovery, or part of the outage still open; the hook's
      calls alternate, and an outage is open exactly while lines are dropped. */
  lemma {:induction false} OutageAccounting(h: History)
    requires Consistent(h)
    ensures Accepts(h) + Reported(HookTrace(h)) + Dropped(h) == Offered(h)
    ensures Alternates(HookTrace(h))
    ensures OutageOpen(HookTrace(h)) <==> Dropped(h) > 0
  {
    if h.After? {
      OutageAccounting(h.before);
      DroppedMeansFailed(h.before);
      var t := HookTrace(h.before);
      assert HookTrace(h) != t ==> HookTrace(h)[..|HookTrace(h)| - 1] == t;
    }
  }

  /** `k` doublings of the least backoff. */
  lemma {:induction false} DoublingNeverShrinks(k: nat)
    ensures MIN_WRITE_BACKOFF <= Doubled(k)
  {
    if k > 0 {
      DoublingNeverShrinks(k - 1);
    }
  }

  /** `writeBackoff` after `k` consecutive failed attempts. */
  function Backoff(k: nat): nat {
    if k == 0 then 0 else Window(k + 1)
  }

  /** The windows, in seconds: 1, 2, 4, 8, 16, and 30 from then on. */
  lemma WindowSpelledOut(k: nat)
    requires 0 < k
    ensures Window(k) == (if k == 1 then 1 else if k == 2 then 2 else if k == 3 then 4 else if k == 4 then 8
                          else if k == 5 then 16 else 30) * 1_000_000_000
  {
    if k > 5 {
      DoubledFrom(k - 1);
    }
  }

  lemma {:induction false} DoubledFrom(k: nat)
    requires 5 <= k
    ensures Doubled(k) >= 32_000_000_000
  {
    if k > 5 {
      DoubledFrom(k - 1);
    }
  }

  lemma WindowStep(k: nat)
    ensures Window(k + 1) == if Backoff(k) < MIN_WRITE_BACKOFF then MIN_WRITE_BACKOFF else Backoff(k)
    ensures Backoff(k + 1) == if 2 * Window(k + 1) > MAX_WRITE_BACKOFF then MAX_WRITE_BACKOFF else 2 * Window(k + 1)
    ensures Backoff(k) > 0 <==> k > 0
  {
    DoublingNeverShrinks(k);
  }

  /** The writer's fields say what the calls so far add up to. */
  predicate Books(h: History, dropped: nat, writeBackoff: nat, unhealthyUntil: Time,
                  hookCalls: seq<HookCall>, hooked: bool)
  {
    && Consistent(h)
    && dropped == Dropped(h)
    && writeBackoff == Backoff(Failures(h))
    && hookCalls == (if hooked then HookTrace(h) else [])
    && (if Failures(h) > 0 then unhealthyUntil == WindowEnd(h) else unhealthyUntil <= LastNow(h))
  }

  lemma RefusedBooks(h: History, c: Call, dropped: nat, writeBackoff: nat, unhealthyUntil: Time,
                     hookCalls: seq<HookCall>, hooked: bool)
    requires Books(h, dropped, writeBackoff, unhealthyUntil, hookCalls, hooked)
    requires LastNow(h) <= c.now < unhealthyUntil && c.outcome.Refused?
    ensures Books(After(h, c), dropped + 1, writeBackoff, unhealthyUntil, hookCalls, hooked)
  {
  }

  lemma FailedBooks(h: History, c: Call, dropped: nat, writeBackoff: nat, unhealthyUntil: Time,
                    hookCalls: seq<HookCall>, hooked: bool)
    requires Books(h, dropped, writeBackoff, unhealthyUntil, hookCalls, hooked)
    requires LastNow(h) <= c.now && unhealthyUntil <= c.now && c.outcome.Failed?
    ensures var window := if writeBackoff < MIN_WRITE_BACKOFF then MIN_WRITE_BACKOFF else writeBackoff;
            Books(After(h, c), dropped + 1, if 2 * window > MAX_WRITE_BACKOFF then MAX_WRITE_BACKOFF else 2 * window,
                  c.now + window, if writeBackoff == 0 && hooked then hookCalls + [Started(dropped + 1)] else hookCalls,
                  hooked)
  {
    DroppedMeansFailed(h);
    WindowStep(Failures(h));
  }

  lemma AcceptedBooks(h: History, c: Call, dropped: nat, writeBackoff: nat, unhealthyUntil: Time,
                      hookCalls: seq<HookCall>, hooked: bool)
    requires Books(h, dropped, writeBackoff, unhealthyUntil, hookCalls, hooked)
    requires LastNow(h) <= c.now && unhealthyUntil <= c.now && c.outcome.Accepted?
    ensures Books(After(h, c), 0, 0, unhealthyUntil,
                  if writeBackoff > 0 && hooked then hookCalls + [Recovered(dropped)] else hookCalls, hooked)
  {
    DroppedMeansFailed(h);
    WindowStep(Failures(h));
  }

  // ----- Where accepted lines are -----

  /** The lines accepted into `loc`'s file so far all end before `loc`. */
  predicate Beyond(h: History, loc: Location) {
    match h
    case Fresh => true
    case After(before, c) =>
      && Beyond(before, loc)
      && (c.outcome.Accepted? && c.outcome.loc.path == loc.path ==>
            c.outcome.loc.offset + c.outcome.loc.length < loc.offset)
  }

  /** Every accepted line reads back, from the segment of its own UTC date,
      and overlaps no other. */
  predicate Placed(files: Files, h: History, dir: Dir, formatDate: int -> Text) {
    match h
    case Fresh => true
    case After(before, c) =>
      && Placed(files, before, dir, formatDate)
      && (c.outcome.Accepted? ==>
            && ReadsBack(files, c.outcome.loc, c.line)
            && Beyond(before, c.outcome.loc)
            && c.outcome.loc.path == Path(dir, formatDate(DayOf(c.stamp))))
  }

  lemma {:induction false} BeyondEnd(files: Files, h: History, dir: Dir, formatDate: int -> Text, loc: Location)
    requires Placed(files, h, dir, formatDate)
    requires loc.path in files ==> |files[loc.path].bytes| <= loc.offset
    ensures Beyond(h, loc)
  {
    if h.After? {
      BeyondEnd(files, h.before, dir, formatDate, loc);
    }
  }

  /** Every accepted line is synced or sits in the open file. */
  predicate Safe(files: Files, h: History, f: Option<Path>) {
    match h
    case Fresh => true
    case After(before, c) =>
      && Safe(files, before, f)
      && (c.outcome.Accepted? ==> Durable(files, c.outcome.loc) || f == Some(c.outcome.loc.path))
  }

  predicate FullySynced(files: Files, p: Path) {
    p in files && files[p].synced == |files[p].bytes|
  }

  /** Whatever the files go through, lines stay where they were accepted; and
      leaving the open file `f` for `g` is safe when `f` was synced. */
  lemma {:induction false} StillPlaced(a: Files, b: Files, h: History, dir: Dir, formatDate: int -> Text,
                                       f: Option<Path>, g: Option<Path>)
    requires Grows(a, b) && Placed(a, h, dir, formatDate)
    ensures Placed(b, h, dir, formatDate)
    ensures Safe(a, h, f) && (f.Some? && f != g ==> FullySynced(b, f.value)) ==> Safe(b, h, g)
  {
    if h.After? {
      StillPlaced(a, b, h.before, dir, formatDate, f, g);
      if h.call.outcome.Accepted? {
        ReadsBackGrows(a, b, h.call.outcome.loc, h.call.line);
      }
    }
  }

  lemma GrowsTransitive(a: Files, b: Files, c: Files, dir: Dir)
    requires Grows(a, b) && Grows(b, c)
    ensures Grows(a, c)
    ensures Elsewhere(a, b, dir) && Elsewhere(b, c, dir) ==> Elsewhere(a, c, dir)
  {
    forall p | p in a
      ensures p in c && a[p].bytes <= c[p].bytes
    {
      PrefixTransitive(a[p].bytes, b[p].bytes, c[p].bytes);
    }
  }

  lemma PrefixTransitive(a: Text, b: Text, c: Text)
    requires a <= b <= c
    ensures a <= c
  {
  }

  class SegmentWriter {
    const store: LogStore
    const dir: Dir
    const formatDate: int -> Text  // a UTC day as "YYYY-MM-DD"
    const hooked: bool             // a drop-state hook is registered

    var f: Option<Path>            // the open file, by name
    var segmentDate: Text
    var hadExistingContent: bool
    var unhealthyUntil: Time
    var writeBackoff: nat
    var dropped: nat
    var hookCalls: seq<HookCall>

    ghost var history: History
    ghost var careful: bool  // no segment was left without a completed sync

    function PathFor(date: Text): Path {
      Path(dir, date)
    }

    /** The open file, if any, is the segment the writer believes it is. */
    ghost predicate FileValid()
      reads this, store
    {
      && WellFormed(store.files)
      && (f.Some? ==> f.value == PathFor(segmentDate) && f.value in store.files && f.value in store.openSegments)
    }

    ghost predicate Valid()
      reads this, store
    {
      && FileValid()
      && Books(history, dropped, writeBackoff, unhealthyUntil, hookCalls, hooked)
      && Placed(store.files, history, dir, formatDate)
      && (careful ==> Safe(store.files, history, f))
    }

    constructor (store: LogStore, dir: Dir, formatDate: int -> Text, hooked: bool)
      requires WellFormed(store.files)
      ensures Valid() && history == Fresh && f == None && careful
      ensures this.store == store && this.dir == dir && this.formatDate == formatDate && this.hooked == hooked
      ensures hadExistingContent == exists p :: p in store.files && p.dir == dir
    {
      this.store, this.dir, this.formatDate, this.hooked := store, dir, formatDate, hooked;
      f, segmentDate := None, [];
      hadExistingContent := exists p :: p in store.files.Keys && p.dir == dir;
      unhealthyUntil, writeBackoff, dropped := ZERO_TIME, 0, 0;
      hookCalls, history, careful := [], Fresh, true;
    }

    /** Only this container's files and open segments change, and they grow. */
    twostate predicate Framed()
      reads this, store
    {
      && Grows(old(store.files), store.files)
      && Elsewhere(old(store.files), store.files, dir)
      && OpenElsewhere(old(store.openSegments), store.openSegments, dir)
    }

    /** What another container's writer does leaves this one as it is. */
    twostate lemma UntouchedBy(other: SegmentWriter)
      requires old(Valid()) && unchanged(this)
      requires other.store == store && other.dir != dir && other.FileValid() && other.Framed()
      ensures Valid()
    {
      hide Books;
      StillPlaced(old(store.files), store.files, history, dir, formatDate, f, f);
    }

    method CloseFile(io: Io) returns (ok: bool)
      requires FileValid() && f.Some?
      modifies this`f, store`openSegments
      ensures f == None && ok == io.closeOk && FileValid()
      ensures store.openSegments == old(store.openSegments) - {old(f).value}
    {
      store.openSegments := store.openSegments - {f.value};
      f := None;
      ok := io.closeOk;
    }

    method Sync(io: Io) returns (ok: bool)
      requires FileValid() && f.Some?
      modifies store`files
      ensures FileValid() && Framed() && ok == io.syncOk && SameBytes(old(store.files), store.files)
      ensures ok ==> FullySynced(store.files, f.value)
    {
      ok := io.syncOk;
      if ok {
        var file := store.files[f.value];
        store.files := store.files[f.value := file.(synced := |file.bytes|)];
      }
    }

    /** Opens `date`'s segment, creating it if need be. */
    method OpenSegment(date: Text, io: Io) returns (ok: bool)
      requires FileValid() && f == None
      modifies this`f, this`segmentDate, this`hadExistingContent, store
      ensures FileValid() && Framed() && ok == (io.mkdirOk && io.openOk)
      ensures if ok then f == Some(PathFor(date)) && segmentDate == date && hadExistingContent else f == None
      ensures forall p :: p in old(store.files) ==> p in store.files && store.files[p] == old(store.files)[p]
      ensures SameBytes(old(store.files), store.files)
    {
      if !io.mkdirOk {
        return false;
      }
      if !io.openOk {
        return false;
      }
      var path := PathFor(date);
      if path !in store.files {
        store.files := store.files[path := File([], 0)];
      }
      f := Some(path);
      store.openSegments := store.openSegments + {path};
      segmentDate := date;
      hadExistingContent := true;
      ok := true;
    }

    /** rollToLocked: syncs and closes the open segment, then opens `date`'s. */
    method RollTo(date: Text, io: Io) returns (ok: bool)
      requires FileValid()
      modifies this`f, this`segmentDate, this`hadExistingContent, store
      ensures FileValid() && Framed() && ok == RollSucceeds(old(f), io) && SameBytes(old(store.files), store.files)
      ensures if ok then f == Some(PathFor(date)) && segmentDate == date && hadExistingContent else f == None
      ensures ok && old(f).Some? ==> FullySynced(store.files, old(f).value)
    {
      if f.Some? {
        var synced := Sync(io);
        var closed := CloseFile(io);
        if !synced {
          return false;
        }
        if !closed {
          return false;
        }
      }
      ghost var left := store.files;
      ok := OpenSegment(date, io);
      GrowsTransitive(old(store.files), left, store.files, dir);
    }

    /** A line refused inside the backoff window. */
    method CountRefused(now: Time, ghost stamp: Time, ghost line: Text)
      requires Valid() && ZERO_TIME <= now && LastNow(history) <= now < unhealthyUntil
      modifies this`dropped, this`history
      ensures Valid() && history == After(old(history), Call(now, stamp, line, Refused))
    {
      ghost var c := Call(now, stamp, line, Refused);
      RefusedBooks(history, c, dropped, writeBackoff, unhealthyUntil, hookCalls, hooked);
      dropped := dropped + 1;
      history := After(history, c);
    }

    /** markUnhealthyLocked: starts or extends the backoff window. */
    method MarkUnhealthy(now: Time, ghost stamp: Time, ghost line: Text)
      requires Valid() && ZERO_TIME <= now && LastNow(history) <= now && unhealthyUntil <= now
      modifies this`dropped, this`hookCalls, this`writeBackoff, this`unhealthyUntil, this`history
      ensures Valid() && history == After(old(history), Call(now, stamp, line, Failed))
    {
      hide Books, ReadsBack, Beyond;
      ghost var c := Call(now, stamp, line, Failed);
      FailedBooks(history, c, dropped, writeBackoff, unhealthyUntil, hookCalls, hooked);
      history := After(history, c);
      dropped := dropped + 1;
      if writeBackoff == 0 && hooked {
        hookCalls := hookCalls + [Started(dropped)];
      }
      if writeBackoff < MIN_WRITE_BACKOFF {
        writeBackoff := MIN_WRITE_BACKOFF;
      }
      unhealthyUntil := now + writeBackoff;
      writeBackoff := writeBackoff * 2;
      if writeBackoff > MAX_WRITE_BACKOFF {
        writeBackoff := MAX_WRITE_BACKOFF;
      }
    }

    /** The end of a successful write: the outage, if any, is over. */
    method MarkHealthy(now: Time, ghost stamp: Time, ghost line: Text, ghost loc: Location)
      requires Valid() && ZERO_TIME <= now && LastNow(history) <= now && unhealthyUntil <= now
      requires ReadsBack(store.files, loc, line) && loc.path == PathFor(formatDate(DayOf(stamp))) && f == Some(loc.path)
      requires Beyond(history, loc)
      modifies this`dropped, this`hookCalls, this`writeBackoff, this`history
      ensures Valid() && history == After(old(history), Call(now, stamp, line, Accepted(loc)))
    {
      ghost var c := Call(now, stamp, line, Accepted(loc));
      AcceptedBooks(history, c, dropped, writeBackoff, unhealthyUntil, hookCalls, hooked);
      history := After(history, c);
      if writeBackoff > 0 && hooked {
        hookCalls := hookCalls + [Recovered(dropped)];
      }
      dropped := 0;
      writeBackoff := 0;
    }

    /** Seek to the end, then one write of the line and its newline.  A failed
        write leaves any part of them behind. */
    method Append(capped: Text, io: Io) returns (off: nat, ok: bool)
      requires FileValid() && f.Some?
      modifies store`files
      ensures FileValid() && Framed() && ok == (io.seekOk && io.writeOk)
      ensures forall p :: p in store.files && f != Some(p) ==>
                p in old(store.files) && store.files[p] == old(store.files)[p]
      ensures Extended(old(store.files), store.files, f.value, Written(io, Stored(capped)))
      ensures ok ==> off == |BytesOf(old(store.files), f.value)|
    {
      if !io.seekOk {
        return 0, false;
      }
      var file, payload := store.files[f.value], Stored(capped);
      var n := if io.writeOk || io.written > |payload| then |payload| else io.written;
      store.files := store.files[f.value := file.(bytes := file.bytes + payload[..n])];
      return |file.bytes|, io.writeOk;
    }

    /** The file operations of one attempted write of `capped` to `date`'s
        segment: roll over, append, and close the file if the write failed. */
    method Attempt(date: Text, capped: Text, io: Io) returns (off: nat, ok: bool)
      requires FileValid()
      modifies this`f, this`segmentDate, this`hadExistingContent, store
      ensures FileValid() && Framed() && ok == Succeeds(old(f), old(segmentDate), date, io)
      ensures if ok then segmentDate == date && f == Some(PathFor(date)) else f == None
      ensures Extended(old(store.files), store.files, PathFor(date),
                       Added(old(f), old(segmentDate), date, io, Stored(capped)))
      ensures ok ==> off == |BytesOf(old(store.files), PathFor(date))|
      ensures ok && old(f).Some? && old(f) != f ==> FullySynced(store.files, old(f).value)
    {
      hide Extended, SameBytes, Written, Stored, WellFormed;
      var path := PathFor(date);
      if f == None || date != segmentDate {
        var rolled := RollTo(date, io);
        SameThenExtended(old(store.files), store.files, store.files, path, []);
        if !rolled {
          return 0, false;
        }
      } else {
        Unchanged(store.files);
      }
      ghost var rolledTo := store.files;
      off, ok := Append(capped, io);
      SameThenExtended(old(store.files), rolledTo, store.files, path, Written(io, Stored(capped)));
      SameAt(old(store.files), rolledTo, path);
      GrowsTransitive(old(store.files), rolledTo, store.files, dir);
      if !ok {
        var _ := CloseFile(io);
      }
    }

    /** Appends `line` to the segment of its own UTC date. */
    method WriteWithLocation(now: Time, stamp: Time, line: Text, io: Io)
      returns (segment: Text, offset: nat, length: uint32, ok: bool, ghost outcome: Outcome)
      requires Valid() && ZERO_TIME <= now && LastNow(history) <= now
      modifies this, store
      ensures Valid() && Framed()
      ensures ok && old(careful) ==> careful
      ensures history == After(old(history), Call(now, stamp, line, outcome))
      ensures ok == outcome.Accepted?
      ensures ok ==> outcome.loc == Location(PathFor(segment), offset, length) && f == Some(PathFor(segment))
      ensures outcome.Refused? <==> now < old(unhealthyUntil)
      ensures outcome.Accepted? ==
              (old(unhealthyUntil) <= now && Succeeds(old(f), old(segmentDate), formatDate(DayOf(stamp)), io))
      ensures outcome.Failed? ==> f == None
      ensures !outcome.Refused? ==>
                var date := formatDate(DayOf(stamp));
                Extended(old(store.files), store.files, PathFor(date),
                         Added(old(f), old(segmentDate), date, io, Stored(Capped(line))))
      ensures ok ==> segment == formatDate(DayOf(stamp)) && offset == |BytesOf(old(store.files), PathFor(segment))|
      ensures outcome.Refused? ==> store.files == old(store.files) && store.openSegments == old(store.openSegments)
    {
      hide Books, Placed, Safe, Beyond;
      if now < unhealthyUntil {
        CountRefused(now, stamp, line);
        return [], 0, 0, false, Refused;
      }
      var capped := CapLine(line);
      var off, written := Attempt(formatDate(DayOf(stamp)), capped, io);
      StillPlaced(old(store.files), store.files, history, dir, formatDate, old(f), f);
      if !written {
        careful := false;
        MarkUnhealthy(now, stamp, line);
        return [], 0, 0, false, Failed;
      }
      ghost var loc := Location(f.value, off, |capped|);
      ExtendedReadsBack(old(store.files), store.files, loc, line);
      BeyondEnd(old(store.files), history, dir, formatDate, loc);
      MarkHealthy(now, stamp, line, loc);
      return segmentDate, off, |capped|, true, Accepted(loc);
    }

    /** Syncs and closes the open segment.  If every earlier segment was left
        synced, a clean Close has every accepted line on disk. */
    method Close(io: Io) returns (ok: bool)
      requires Valid()
      modifies this`f, this`careful, store
      ensures SameBytes(old(store.files), store.files)
      ensures Valid() && f == None && Framed() && ok == (old(f) == None || (io.syncOk && io.closeOk))
      ensures ok && old(careful) ==> Safe(store.files, history, None)
    {
      if f == None {
        return true;
      }
      var synced := Sync(io);
      StillPlaced(old(store.files), store.files, history, dir, formatDate, f, if synced then None else f);
      careful := careful && synced;
      var closed := CloseFile(io);
      ok := synced && closed;
    }
  }
}
