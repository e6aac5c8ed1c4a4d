/** The secondary index agrees with a plain scan of the log store, however
    line writes, their later observation and the backfill interleave, and
    whatever failing writes leave behind. */
module IndexAgreement {
  import opened Bytes
  import opened Lines
  import opened Writer
  import opened ShardCodec
  import opened IndexShards
  import opened IndexManager
  import opened Seqs
  import IndexPages

  /** A line already written at `offset` of `path`, not yet observed. */
  datatype Note = Note(path: Path, offset: nat, line: Text)

  /** Whether the key exists.  While Create holds the manager's lock it visits
      segments in listing order: at least every one that existed when it began,
      and perhaps some that appeared since. */
  datatype Mode =
    | Absent
    | Building(must: set<Path>, visited: set<Path>, reading: Option<Cursor>)
    | Live

  datatype Cursor = Cursor(path: Path, pos: nat)

  /** Where a line starts. */
  datatype Spot = Spot(path: Path, offset: nat)

  /** `torn` are the starts of the lines that hold bytes of a failed write, and
      `gone` the segments deleted since the index was last compacted or begun. */
  datatype State = State(logs: Files, torn: set<Spot>, gone: set<Path>, waiting: multiset<Note>, kf: KeyFiles,
                         mode: Mode)

  datatype Action =
    | Write(path: Path, line: Text)
    | Tear(path: Path, line: Text, n: nat)  // a failing write leaves the first n bytes
    | Observe(note: Note)
    | BeginCreate
    | OpenSegment(next: Path)
    | ReadLine
    | CloseSegment
    | EndCreate
    | DeleteKey
    | DeleteSegment(path: Path)
    | Compact

  function LinesOf(logs: Files, path: Path): seq<Located> {
    LinesFrom(BytesOf(logs, path), 0)
  }

  function Appended(logs: Files, path: Path, x: Text): Files {
    logs[path := File(BytesOf(logs, path) + x, if path in logs then logs[path].synced else 0)]
  }

  /** The record of any value this line carries is within the size limit. */
  predicate Indexable(lib: Library, key: Text, path: Path, text: Text) {
    var v := lib.valueOf(text, key);
    var names := |path.dir.namespace| + |path.dir.pod| + |path.dir.container| + |path.segment|;
    v.Some? ==> HEADER + names + |v.value| <= MAX_BODY
  }

  /** Both begin with the same time, as far as 64-bit nanoseconds tell, or with
      none. */
  predicate SameTime(lib: Library, a: Text, b: Text) {
    && (lib.stampOf(a).Some? <==> lib.stampOf(b).Some?)
    && (lib.stampOf(a).Some? ==> ToInt64(lib.stampOf(a).value) == ToInt64(lib.stampOf(b).value))
  }

  /** Capping the line changes neither the value it carries nor, if it carries
      one, the time it begins with. */
  predicate Faithful(lib: Library, key: Text, line: Text) {
    && lib.valueOf(Capped(line), key) == lib.valueOf(line, key)
    && (lib.valueOf(line, key).Some? ==> SameTime(lib, line, Capped(line)))
  }

  /** The premises on lines as readers find them: of a 32-bit length, indexable. */
  predicate Storable(lib: Library, key: Text, path: Path, text: Text) {
    |text| < TWO_32 && Indexable(lib, key, path, text)
  }

  /** Appending `x` leaves a file, and a last line in it, within the limits. */
  predicate Appendable(lib: Library, key: Text, logs: Files, path: Path, x: Text) {
    var b := BytesOf(logs, path);
    |b| + |x| < TWO_63 && Storable(lib, key, path, TrimEol(Unfinished(b) + x))
  }

  /** What a failing write of `line` can leave. */
  function Torn(line: Text, n: nat): (x: Text)
  {
    Clip(n, Stored(Capped(line)))
  }

  function NoteRef(lib: Library, key: Text, n: Note): Option<Reference> {
    LineRef(lib, key, n.path, n.offset, |Capped(n.line)|, n.line)
  }

  ghost predicate Step(lib: Library, key: Text, s: State, a: Action, t: State) {
    match a
    case Write(path, line) =>
      && Plain(Capped(line)) && Faithful(lib, key, line) && Indexable(lib, key, path, Capped(line))
      && Appendable(lib, key, s.logs, path, Stored(Capped(line))) && path !in s.gone
      && t == s.(logs := Appended(s.logs, path, Stored(Capped(line))),
                 waiting := s.waiting + multiset{Note(path, |BytesOf(s.logs, path)|, line)})
    case Tear(path, line, n) =>
      var x := Torn(line, n);
      && Plain(Capped(line)) && Appendable(lib, key, s.logs, path, x) && path !in s.gone
      && t == s.(logs := Appended(s.logs, path, x),
                 torn := if x == [] then s.torn else s.torn + {Spot(path, TailStart(BytesOf(s.logs, path)))})
    case Observe(n) =>
      && n in s.waiting && !s.mode.Building?
      && t == s.(waiting := s.waiting - multiset{n},
                 kf := if s.mode.Live? then AddRef(lib, s.kf, NoteRef(lib, key, n)) else s.kf)
    case BeginCreate =>
      s.mode.Absent? && t == s.(kf := map[], gone := {}, mode := Building(s.logs.Keys, {}, None))
    case OpenSegment(path) =>
      && s.mode.Building? && s.mode.reading == None && path in s.logs && path !in s.mode.visited
      && t == s.(mode := s.mode.(reading := Some(Cursor(path, 0))))
    case ReadLine =>
      && s.mode.Building? && s.mode.reading.Some?
      && var c := s.mode.reading.value;
      && var b := BytesOf(s.logs, c.path);
      && c.pos < |b|
      && t == s.(kf := AddRef(lib, s.kf, LineRef(lib, key, c.path, c.pos, |LineAt(b, c.pos)|, LineAt(b, c.pos))),
                 mode := AfterLine(s.mode, c.path, b, LineEnd(b, c.pos)))
    case CloseSegment =>
      && s.mode.Building? && s.mode.reading.Some?
      && var c := s.mode.reading.value;
      && c.pos == |BytesOf(s.logs, c.path)|
      && t == s.(mode := s.mode.(visited := s.mode.visited + {c.path}, reading := None))
    case EndCreate =>
      s.mode.Building? && s.mode.reading == None && s.mode.must <= s.mode.visited && t == s.(mode := Live)
    case DeleteKey =>
      s.mode.Live? && t == s.(kf := map[], mode := Absent)
    case DeleteSegment(path) =>
      && path in s.logs && (forall n :: n in s.waiting ==> n.path != path) && !NeededBy(s.mode, path)
      && t == s.(logs := s.logs - {path}, gone := s.gone + {path}, torn := set x | x in s.torn && x.path != path)
    case Compact =>
      !s.mode.Building? && t == s.(kf := CompactFrom(s.logs, s.kf, 0).0, gone := {})
  }

  /** A running Create is reading the segment, or has yet to. */
  predicate NeededBy(mode: Mode, path: Path) {
    && mode.Building?
    && ((path in mode.must && path !in mode.visited) || (mode.reading.Some? && mode.reading.value.path == path))
  }

  /** A line that ends in the end of file rather than a newline is the last one
      the backfill reads of its segment. */
  function AfterLine(mode: Mode, path: Path, b: Text, end: nat): Mode
    requires mode.Building? && 0 < end <= |b|
  {
    if b[end - 1] == NL then mode.(reading := Some(Cursor(path, end)))
    else mode.(visited := mode.visited + {path}, reading := None)
  }

  // ----- The invariant -----

  predicate WaitingAt(s: State, path: Path, offset: nat) {
    exists n :: n in s.waiting && n.path == path && n.offset == offset
  }

  ghost predicate Referenced(lib: Library, kf: KeyFiles, path: Path, l: Located, value: Text) {
    exists r :: r in RefsOf(kf, lib.shardOf(value)) && r.path == path && r.offset == l.offset
                && r.length == |l.text| && r.value == value && TimedBy(lib, r, l.text)
  }

  /** The reference has the time that the text begins with, or is marked as
      having none when the text has none. */
  predicate TimedBy(lib: Library, r: Reference, text: Text) {
    && (r.validTime <==> lib.stampOf(text).Some?)
    && (r.validTime ==> r.timestamp == ToInt64(lib.stampOf(text).value))
  }

  /** A line that carries the key has a reference, or its observation is due. */
  ghost predicate Covered(lib: Library, key: Text, s: State, path: Path, l: Located) {
    var v := lib.valueOf(l.text, key);
    v.Some? ==> Referenced(lib, s.kf, path, l, v.value) || WaitingAt(s, path, l.offset)
  }

  /** The bytes at the reference are a text with exactly the value indexed and
      exactly the time the reference is sorted by. */
  ghost predicate ReadsValue(lib: Library, key: Text, logs: Files, r: Reference) {
    var line := IndexPages.ReadLine(logs, r);
    line.Some? && lib.valueOf(line.value, key) == Some(r.value) && TimedBy(lib, r, line.value)
  }

  ghost predicate GoodLogs(lib: Library, key: Text, logs: Files) {
    forall p :: p in logs ==>
      |logs[p].bytes| < TWO_63 && forall l :: l in LinesOf(logs, p) ==> Storable(lib, key, p, l.text)
  }

  /** Every unfinished line is known to be torn, and so is no line to come. */
  ghost predicate Scarred(s: State) {
    && (forall p :: p in s.logs && !Whole(s.logs[p].bytes) ==> Spot(p, TailStart(s.logs[p].bytes)) in s.torn)
    && (forall x :: x in s.torn ==> x.path in s.logs && x.offset < |s.logs[x.path].bytes|)
  }

  predicate Intact(s: State, path: Path, l: Located) {
    Spot(path, l.offset) !in s.torn
  }

  ghost predicate GoodNotes(lib: Library, key: Text, s: State) {
    forall n :: n in s.waiting ==>
      && n.path in s.logs && Holds(s.logs[n.path].bytes, n.offset, Capped(n.line))
      && Faithful(lib, key, n.line) && Indexable(lib, key, n.path, Capped(n.line))
  }

  ghost predicate GoodRefs(lib: Library, key: Text, logs: Files, kf: KeyFiles) {
    Good(lib, kf) && forall shard: byte, r :: r in RefsOf(kf, shard) && r.path in logs ==> ReadsValue(lib, key, logs, r)
  }

  /** Only segments that are gone have references and no file. */
  ghost predicate Stale(s: State) {
    && (forall p :: p in s.gone ==> p !in s.logs)
    && forall shard: byte, r: Reference :: r in RefsOf(s.kf, shard) ==> r.path in s.logs || r.path in s.gone
  }

  /** An intact line of the store. */
  predicate Due(s: State, p: Path, l: Located) {
    p in s.logs && l in LinesOf(s.logs, p) && Intact(s, p, l)
  }

  ghost predicate Progress(lib: Library, key: Text, s: State) {
    match s.mode
    case Absent => true
    case Live => forall p, l :: Due(s, p, l) ==> Covered(lib, key, s, p, l)
    case Building(must, visited, reading) =>
      && (forall p, l :: Due(s, p, l) ==>
            && (p in visited ==> Covered(lib, key, s, p, l))
            && (p !in must ==> WaitingAt(s, p, l.offset))
            && (reading.Some? && p == reading.value.path && l.offset < reading.value.pos ==>
                  Covered(lib, key, s, p, l)))
      && (reading.Some? ==>
            var c := reading.value;
            && c.path in s.logs && c.pos <= |s.logs[c.path].bytes|
            && (c.pos > 0 ==> s.logs[c.path].bytes[c.pos - 1] == NL))
  }

  ghost predicate Inv(lib: Library, key: Text, s: State) {
    && GoodLogs(lib, key, s.logs)
    && Scarred(s)
    && Stale(s)
    && GoodNotes(lib, key, s)
    && GoodRefs(lib, key, s.logs, s.kf)
    && Progress(lib, key, s)
  }

  // ----- Adding references -----

  /** The bytes at the line's place are its text, and a reference can say so. */
  predicate Stands(lib: Library, key: Text, logs: Files, path: Path, l: Located) {
    && path in logs && |logs[path].bytes| < TWO_63 && l.offset + |l.text| <= |logs[path].bytes|
    && logs[path].bytes[l.offset..l.offset + |l.text|] == l.text
    && Storable(lib, key, path, l.text)
  }

  lemma LineStands(lib: Library, key: Text, logs: Files, path: Path, l: Located)
    requires GoodLogs(lib, key, logs) && path in logs && l in LinesOf(logs, path)
    ensures Stands(lib, key, logs, path, l)
  {
    hide LinesFrom, Storable;
    LineStarts(logs[path].bytes, 0);
  }

  lemma NoteStands(lib: Library, key: Text, s: State, n: Note)
    requires GoodLogs(lib, key, s.logs) && GoodNotes(lib, key, s) && n in s.waiting
    ensures Stands(lib, key, s.logs, n.path, Located(n.offset, Capped(n.line)))
  {
    hide LinesFrom, Indexable, Faithful, Capped, LinesOf;
    var b, text := s.logs[n.path].bytes, Capped(n.line);
    assert Holds(b, n.offset, text);
    assert b[n.offset..n.offset + |text|] == Stored(text)[..|text|];
  }

  /** A reference to a text of the store is stored in its value's shard, reads
      back, and disturbs no other. */
  lemma AddedRef(lib: Library, key: Text, logs: Files, kf: KeyFiles, path: Path, l: Located, line: Text)
    requires GoodRefs(lib, key, logs, kf) && Stands(lib, key, logs, path, l)
    requires lib.valueOf(line, key) == lib.valueOf(l.text, key)
    requires lib.valueOf(line, key).Some? ==> SameTime(lib, line, l.text)
    ensures var after := AddRef(lib, kf, LineRef(lib, key, path, l.offset, |l.text|, line));
            && GoodRefs(lib, key, logs, after)
            && (forall p, m, v :: Referenced(lib, kf, p, m, v) ==> Referenced(lib, after, p, m, v))
            && (lib.valueOf(l.text, key).Some? ==> Referenced(lib, after, path, l, lib.valueOf(l.text, key).value))
            && (forall shard: byte, r: Reference :: r in RefsOf(after, shard) ==>
                  r in RefsOf(kf, shard) || r.path == path)
  {
    hide AppendTo, Canonical, GoodRefs, Stands, TimedBy, SameTime;
    var ref := LineRef(lib, key, path, l.offset, |l.text|, line);
    if ref.Some? {
      var r := ref.value;
      LineRefTimed(lib, key, path, l.offset, |l.text|, line, l.text);
      RefOfLine(lib, key, logs, path, l, r);
      GoodRefsGood(lib, key, logs, kf);
      AppendAdds(lib, kf, r);
      AddedRefReads(lib, key, logs, kf, AppendTo(lib, kf, r), r);
      assert Canonical(r) in RefsOf(AppendTo(lib, kf, r), lib.shardOf(r.value));
    }
  }

  /** The reference of a line has the time of a text if and only if they begin
      with the same. */
  lemma LineRefTimed(lib: Library, key: Text, path: Path, offset: nat, length: nat, line: Text, text: Text)
    ensures var ref := LineRef(lib, key, path, offset, length, line);
            ref.Some? ==> (TimedBy(lib, Canonical(ref.value), text) <==> SameTime(lib, line, text))
  {
  }

  lemma GoodRefsGood(lib: Library, key: Text, logs: Files, kf: KeyFiles)
    requires GoodRefs(lib, key, logs, kf)
    ensures Good(lib, kf)
  {
  }

  /** What a reference made for a text of the store reads back. */
  lemma RefReads(lib: Library, key: Text, logs: Files, path: Path, l: Located, r: Reference)
    requires Stands(lib, key, logs, path, l)
    requires r.path == path && r.offset == ToInt64(l.offset) && r.length == |l.text| % TWO_32
    ensures IndexPages.ReadLine(logs, Canonical(r)) == Some(l.text) && Canonical(r).value == r.value
    ensures Canonical(r).path == path && Canonical(r).offset == l.offset && Canonical(r).length == |l.text|
  {
    hide Indexable;
  }

  lemma RefOfLine(lib: Library, key: Text, logs: Files, path: Path, l: Located, r: Reference)
    requires Stands(lib, key, logs, path, l)
    requires r.path == path && r.offset == ToInt64(l.offset) && r.length == |l.text| % TWO_32
    requires lib.valueOf(l.text, key) == Some(r.value) && TimedBy(lib, Canonical(r), l.text)
    ensures Fits(r) && ReadsValue(lib, key, logs, Canonical(r))
    ensures Canonical(r).path == path && Canonical(r).offset == l.offset && Canonical(r).length == |l.text|
    ensures Canonical(r).value == r.value
  {
    hide Canonical, TimedBy;
    RefReads(lib, key, logs, path, l, r);
  }

  lemma AddedRefReads(lib: Library, key: Text, logs: Files, kf: KeyFiles, after: KeyFiles, r: Reference)
    requires GoodRefs(lib, key, logs, kf) && Good(lib, after)
    requires ReadsValue(lib, key, logs, Canonical(r))
    requires forall s: byte :: RefsOf(after, s)
               == if s == lib.shardOf(r.value) then RefsOf(kf, s) + [Canonical(r)] else RefsOf(kf, s)
    ensures GoodRefs(lib, key, logs, after)
  {
    hide ScanFile, Records;
    forall shard: byte, q | q in RefsOf(after, shard) && q.path in logs
      ensures ReadsValue(lib, key, logs, q)
    {
      assert q in RefsOf(kf, shard) || q == Canonical(r);
    }
  }

  // ----- Bytes going to the end of a file -----

  /** The readable lines of the store after `x` went to the end of a file: the
      ones there were, and the one that `x` starts or goes on with. */
  lemma PieceLines(lib: Library, key: Text, logs: Files, path: Path, x: Text)
    requires GoodLogs(lib, key, logs) && Appendable(lib, key, logs, path, x) && OneLine(x)
    ensures var after, s := Appended(logs, path, x), TailStart(BytesOf(logs, path));
            && GoodLogs(lib, key, after) && after.Keys == logs.Keys + {path}
            && (forall p :: p != path ==>
                  LinesOf(after, p) == LinesOf(logs, p) && BytesOf(after, p) == BytesOf(logs, p))
            && BytesOf(logs, path) <= BytesOf(after, path)
            && (forall l :: l in LinesOf(after, path) ==> l in LinesOf(logs, path) || (l.offset == s && x != []))
            && (forall l :: l in LinesOf(logs, path) && (l.offset != s || x == []) ==> l in LinesOf(after, path))
  {
    hide LinesFrom, Storable, TailStart, TrimEol;
    var b, after := BytesOf(logs, path), Appended(logs, path, x);
    AppendPiece(b, x);
    LinesSplit(b);
    EmptyLines();
    assert x == [] ==> b + x == b;
    forall l | l in LinesOf(after, path)
      ensures Storable(lib, key, path, l.text)
    {
      assert l in LinesOf(logs, path) || l == Located(TailStart(b), TrimEol(Unfinished(b) + x));
    }
  }

  lemma EmptyLines()
    ensures LinesFrom([], 0) == []
  {
  }

  lemma PieceRefs(lib: Library, key: Text, logs: Files, path: Path, x: Text, kf: KeyFiles)
    requires GoodRefs(lib, key, logs, kf)
    requires path in logs || forall shard: byte, r: Reference :: r in RefsOf(kf, shard) ==> r.path != path
    ensures GoodRefs(lib, key, Appended(logs, path, x), kf)
  {
    hide ScanFile, Records;
    var b, after := BytesOf(logs, path), Appended(logs, path, x);
    forall shard: byte, r | r in RefsOf(kf, shard) && r.path in after
      ensures ReadsValue(lib, key, after, r)
    {
      assert ReadsValue(lib, key, logs, r);
      if r.path == path {
        SliceOfPrefix(b, x, r.offset, r.offset + r.length);
      }
    }
  }

  lemma SliceOfPrefix(b: Text, more: Text, lo: nat, hi: nat)
    requires lo <= hi <= |b|
    ensures (b + more)[lo..hi] == b[lo..hi]
  {
  }

  lemma HoldsOn(b: Text, more: Text, offset: nat, text: Text)
    requires Holds(b, offset, text)
    ensures Holds(b + more, offset, text)
  {
    SliceOfPrefix(b, more, offset, offset + |text| + 1);
  }

  lemma PieceNotes(lib: Library, key: Text, s: State, path: Path, x: Text)
    requires GoodNotes(lib, key, s)
    ensures GoodNotes(lib, key, s.(logs := Appended(s.logs, path, x)))
  {
    hide Holds, Capped, Faithful, Indexable;
    forall n | n in s.waiting
      ensures n.path in Appended(s.logs, path, x)
              && Holds(Appended(s.logs, path, x)[n.path].bytes, n.offset, Capped(n.line))
    {
      HoldsOn(BytesOf(s.logs, n.path), if n.path == path then x else [], n.offset, Capped(n.line));
      assert BytesOf(s.logs, n.path) + [] == BytesOf(s.logs, n.path);
    }
  }

  /** Where the tail starts after a piece has gone to the end. */
  lemma PieceTail(b: Text, x: Text)
    requires OneLine(x)
    ensures !Whole(b + x) ==> TailStart(b + x) == TailStart(b)
    ensures x != [] ==> TailStart(b) < |b + x|
  {
    if x == [] {
      assert b + x == b;
    } else if !Whole(b + x) {
      assert (b + x)[|b + x| - 1] == x[|x| - 1];
      assert x == x[..|x| - 1] + [x[|x| - 1]];
      TailGoesOn(b, x);
    }
  }

  lemma {:induction false} TailGoesOn(b: Text, x: Text)
    requires NL !in x
    ensures TailStart(b + x) == TailStart(b)
  {
    if x == [] {
      assert b + x == b;
    } else {
      assert (b + x)[..|b + x| - 1] == b + x[..|x| - 1];
      TailGoesOn(b, x[..|x| - 1]);
    }
  }

  /** A step that only appends keeps the invariant if the line it starts or goes
      on with is torn, or waits for its observation. */
  lemma PieceKeeps(lib: Library, key: Text, s: State, path: Path, x: Text, t: State)
    requires Inv(lib, key, s) && Appendable(lib, key, s.logs, path, x) && OneLine(x)
    requires t.logs == Appended(s.logs, path, x) && t.kf == s.kf && t.mode == s.mode && t.gone == s.gone
    requires path !in s.gone
    requires s.torn <= t.torn && s.waiting <= t.waiting && GoodNotes(lib, key, t) && Scarred(t)
    requires var at := TailStart(BytesOf(s.logs, path));
             x == [] || Spot(path, at) in t.torn || WaitingAt(t, path, at)
    ensures Inv(lib, key, t)
  {
    hide LinesFrom, Storable, GoodNotes, Scarred, GoodLogs, LinesOf, Referenced, Appendable, TailStart, ReadsValue;
    PieceLines(lib, key, s.logs, path, x);
    PieceRefs(lib, key, s.logs, path, x, s.kf);
    PieceStale(s, path, t);
    forall p, l
      ensures Covered(lib, key, s, p, l) ==> Covered(lib, key, t, p, l)
      ensures WaitingAt(s, p, l.offset) ==> WaitingAt(t, p, l.offset)
    {
      if WaitingAt(s, p, l.offset) {
        var n :| n in s.waiting && n.path == p && n.offset == l.offset;
        assert n in t.waiting;
      }
    }
    forall p, l | Due(t, p, l)
      ensures Due(s, p, l) || WaitingAt(t, p, l.offset)
    {
      NoLinesBefore(s.logs, p);
    }
  }

  lemma PieceStale(s: State, path: Path, t: State)
    requires Stale(s) && path !in s.gone && t.gone == s.gone && t.kf == s.kf && t.logs.Keys == s.logs.Keys + {path}
    ensures Stale(t)
  {
    hide RefsOf;
  }

  lemma NoLinesBefore(logs: Files, p: Path)
    ensures p !in logs ==> LinesOf(logs, p) == []
  {
    EmptyLines();
  }

  lemma WriteKeeps(lib: Library, key: Text, s: State, path: Path, line: Text, t: State)
    requires Inv(lib, key, s) && Step(lib, key, s, Write(path, line), t)
    ensures Inv(lib, key, t)
  {
    hide GoodLogs, GoodRefs, Progress, TailStart, Capped, Faithful, Indexable, Appendable, LinesFrom, Stale, Holds;
    var b, text := BytesOf(s.logs, path), Capped(line);
    var own := Note(path, |b|, line);
    PieceNotes(lib, key, s, path, Stored(text));
    OwnNoteHolds(b, text);
    StoredIsOneLine(text);
    WholeAfter(b, text);
    assert own in t.waiting;
    PieceKeeps(lib, key, s, path, Stored(text), t);
  }

  lemma OwnNoteHolds(b: Text, text: Text)
    requires Plain(text)
    ensures Holds(b + Stored(text), |b|, text)
  {
  }

  lemma StoredIsOneLine(text: Text)
    requires Plain(text)
    ensures OneLine(Stored(text)) && forall n: nat :: OneLine(Clip(n, Stored(text)))
  {
    assert Stored(text)[..|text|] == text;
  }

  lemma WholeAfter(b: Text, text: Text)
    ensures Whole(b + Stored(text))
  {
  }

  lemma TearKeeps(lib: Library, key: Text, s: State, path: Path, line: Text, n: nat, t: State)
    requires Inv(lib, key, s) && Step(lib, key, s, Tear(path, line, n), t)
    ensures Inv(lib, key, t)
  {
    hide GoodLogs, GoodRefs, Progress, TailStart, Capped, Appendable, LinesFrom, Torn, Stale;
    var b, x := BytesOf(s.logs, path), Torn(line, n);
    TornIsOneLine(line, n);
    PieceNotes(lib, key, s, path, x);
    SameNotes(lib, key, s.(logs := t.logs), t);
    PieceTail(b, x);
    TearScars(s, path, x, t);
    PieceKeeps(lib, key, s, path, x, t);
  }

  lemma TornIsOneLine(line: Text, n: nat)
    requires Plain(Capped(line))
    ensures OneLine(Torn(line, n))
  {
    hide Capped;
    StoredIsOneLine(Capped(line));
  }

  lemma TearScars(s: State, path: Path, x: Text, t: State)
    requires Scarred(s) && OneLine(x) && t.logs == Appended(s.logs, path, x)
    requires t.torn == if x == [] then s.torn else s.torn + {Spot(path, TailStart(BytesOf(s.logs, path)))}
    ensures Scarred(t)
  {
    hide TailStart;
    var b := BytesOf(s.logs, path);
    PieceTail(b, x);
    assert x == [] ==> b + x == b;
  }

  lemma ObserveKeeps(lib: Library, key: Text, s: State, n: Note, t: State)
    requires Inv(lib, key, s) && Step(lib, key, s, Observe(n), t)
    ensures Inv(lib, key, t)
  {
    hide LinesFrom, Capped, LineRef, AddRef, GoodLogs, GoodRefs, Referenced, Storable, Holds, Stands, Scarred,
         Indexable, RefsOf, Stale;
    SameScars(s, t);
    if !s.mode.Live? {
      SameStale(s, t, n.path);
    } else {
      var own := Located(n.offset, Capped(n.line));
      NoteStands(lib, key, s, n);
      AddedRef(lib, key, s.logs, s.kf, n.path, own, n.line);
      SameStale(s, t, n.path);
      forall p, l | Due(t, p, l)
        ensures Covered(lib, key, t, p, l)
      {
        assert Due(s, p, l) && Covered(lib, key, s, p, l);
        if p == n.path && l.offset == n.offset {
          HeldLine(s.logs[p].bytes, Capped(n.line), l);
        } else if WaitingAt(s, p, l.offset) {
          var m :| m in s.waiting && m.path == p && m.offset == l.offset;
          assert m in t.waiting;
        }
      }
    }
  }

  lemma SameStale(s: State, t: State, path: Path)
    requires s.logs == t.logs && s.gone == t.gone && path in s.logs
    requires forall shard: byte, r: Reference :: r in RefsOf(t.kf, shard) ==> r in RefsOf(s.kf, shard) || r.path == path
    ensures Stale(s) ==> Stale(t)
  {
    hide RefsOf;
  }

  lemma SameScars(s: State, t: State)
    requires s.logs == t.logs && s.torn == t.torn
    ensures Scarred(s) ==> Scarred(t)
    ensures forall p, l :: Due(s, p, l) <==> Due(t, p, l)
  {
    hide LinesOf;
  }

  lemma ReadLineKeeps(lib: Library, key: Text, s: State, t: State)
    requires Inv(lib, key, s) && Step(lib, key, s, ReadLine, t)
    ensures Inv(lib, key, t)
  {
    hide LinesFrom, LineRef, AddRef, GoodRefs, GoodNotes, Storable, LineAt, Covered, WaitingAt, Scarred, GoodLogs, Due,
         Stale, RefsOf;
    var c := s.mode.reading.value;
    SameNotes(lib, key, s, t);
    SameScars(s, t);
    ReadLineCovers(lib, key, s, t);
    SameStale(s, t, c.path);
    forall p, l | Due(s, p, l)
      ensures p in s.logs && l.offset < |s.logs[p].bytes|
    {
      DueInside(s, p, l);
    }
  }

  lemma DueInside(s: State, p: Path, l: Located)
    requires Due(s, p, l)
    ensures p in s.logs && l in LinesOf(s.logs, p) && l.offset < |s.logs[p].bytes|
  {
    hide LinesFrom;
    LineStarts(s.logs[p].bytes, 0);
  }

  lemma ReadLineCovers(lib: Library, key: Text, s: State, t: State)
    requires Inv(lib, key, s) && Step(lib, key, s, ReadLine, t)
    ensures GoodRefs(lib, key, t.logs, t.kf)
    ensures forall shard: byte, r: Reference :: r in RefsOf(t.kf, shard) ==>
              r in RefsOf(s.kf, shard) || r.path == s.mode.reading.value.path
    ensures var c := s.mode.reading.value;
            var end := LineEnd(BytesOf(s.logs, c.path), c.pos);
            forall p, l :: Due(s, p, l) ==>
              && (Covered(lib, key, s, p, l) ==> Covered(lib, key, t, p, l))
              && (WaitingAt(s, p, l.offset) ==> WaitingAt(t, p, l.offset))
              && (p == c.path && c.pos <= l.offset < end ==> Covered(lib, key, t, p, l))
  {
    hide LinesFrom, LineRef, AddRef, GoodRefs, GoodNotes, Referenced, Storable, LineAt, LineEnd, Scarred, GoodLogs,
         Stands, Due;
    var c := s.mode.reading.value;
    var b := s.logs[c.path].bytes;
    var own := Located(c.pos, LineAt(b, c.pos));
    LineAtBoundary(b, c.pos);
    LineStands(lib, key, s.logs, c.path, own);
    AddedRef(lib, key, s.logs, s.kf, c.path, own, own.text);
    forall p, l | Due(s, p, l)
      ensures Covered(lib, key, s, p, l) ==> Covered(lib, key, t, p, l)
      ensures WaitingAt(s, p, l.offset) ==> WaitingAt(t, p, l.offset)
      ensures p == c.path && c.pos <= l.offset < LineEnd(b, c.pos) ==> Covered(lib, key, t, p, l)
    {
      if p == c.path && c.pos <= l.offset < LineEnd(b, c.pos) {
        DueInside(s, p, l);
        OnlyLineInside(b, c.pos, l);
        SameOffsetSameLine(s.logs, p, l, own);
      }
    }
  }

  lemma SameOffsetSameLine(logs: Files, p: Path, l: Located, m: Located)
    requires l in LinesOf(logs, p) && m in LinesOf(logs, p) && l.offset == m.offset
    ensures l == m
  {
    LineStarts(BytesOf(logs, p), 0);
  }

  lemma OnlyLineInside(b: Text, pos: nat, l: Located)
    requires pos < |b| && l in LinesFrom(b, 0) && pos <= l.offset < LineEnd(b, pos)
    ensures l.offset == pos
  {
    LineStarts(b, 0);
  }

  lemma SameNotes(lib: Library, key: Text, s: State, t: State)
    requires s.logs == t.logs && s.waiting == t.waiting
    ensures GoodNotes(lib, key, s) ==> GoodNotes(lib, key, t)
  {
    hide LinesOf;
  }

  lemma BuildStepsKeep(lib: Library, key: Text, s: State, a: Action, t: State)
    requires Inv(lib, key, s) && Step(lib, key, s, a, t)
    requires a.OpenSegment? || a.CloseSegment? || a.EndCreate?
    ensures Inv(lib, key, t)
  {
    hide LinesFrom, GoodLogs, GoodRefs, Storable, GoodNotes, Scarred, Due, Referenced;
    SameNotes(lib, key, s, t);
    SameScars(s, t);
    SameCover(lib, key, s, t);
    hide Covered, WaitingAt;
    forall p, l | Due(s, p, l)
      ensures p in s.logs && l.offset < |s.logs[p].bytes|
    {
      DueInside(s, p, l);
    }
  }

  lemma SameCover(lib: Library, key: Text, s: State, t: State)
    requires s.waiting == t.waiting && s.kf == t.kf
    ensures forall p, l :: Covered(lib, key, s, p, l) ==> Covered(lib, key, t, p, l)
    ensures forall p, l: Located :: WaitingAt(s, p, l.offset) ==>
              WaitingAt(t, p, l.offset) && Covered(lib, key, t, p, l)
  {
    hide Referenced;
  }

  lemma ResetKeeps(lib: Library, key: Text, s: State, a: Action, t: State)
    requires Inv(lib, key, s) && Step(lib, key, s, a, t)
    requires a.BeginCreate? || a.DeleteKey?
    ensures Inv(lib, key, t)
  {
    hide LinesFrom, GoodLogs, Storable, GoodNotes, Covered, WaitingAt, Scarred, Stale, GoodRefs, Due;
    SameNotes(lib, key, s, t);
    SameScars(s, t);
    NoRefsYet(lib, key, s, t);
    forall p, l | Due(s, p, l)
      ensures p in s.logs
    {
      DueInside(s, p, l);
    }
  }

  lemma NoRefsYet(lib: Library, key: Text, s: State, t: State)
    requires Stale(s) && t.logs == s.logs && t.gone <= s.gone && t.kf == map[]
    ensures GoodRefs(lib, key, t.logs, t.kf) && Stale(t)
  {
    hide ReadsValue;
  }

  lemma DeleteSegmentKeeps(lib: Library, key: Text, s: State, path: Path, t: State)
    requires Inv(lib, key, s) && Step(lib, key, s, DeleteSegment(path), t)
    ensures Inv(lib, key, t)
  {
    hide Due, Covered, WaitingAt, GoodLogs, GoodNotes, GoodRefs, Stale, Scarred;
    DeleteLogs(lib, key, s, path, t);
    GoneRefs(lib, key, s, path, t);
    SameCover(lib, key, s, t);
    DeleteScars(s, path, t);
  }

  lemma DeleteLogs(lib: Library, key: Text, s: State, path: Path, t: State)
    requires GoodLogs(lib, key, s.logs) && GoodNotes(lib, key, s)
    requires t.logs == s.logs - {path} && t.waiting == s.waiting && forall n :: n in s.waiting ==> n.path != path
    ensures GoodLogs(lib, key, t.logs) && GoodNotes(lib, key, t)
  {
    hide LinesFrom, Storable, Holds, Faithful, Indexable, Capped;
    forall p | p in t.logs
      ensures LinesOf(t.logs, p) == LinesOf(s.logs, p) && t.logs[p] == s.logs[p]
    {
    }
  }

  lemma DeleteScars(s: State, path: Path, t: State)
    requires Scarred(s) && path in s.logs
    requires t.logs == s.logs - {path} && t.torn == set x | x in s.torn && x.path != path
    ensures Scarred(t)
    ensures forall p, l :: Due(t, p, l) ==> Due(s, p, l)
  {
    hide LinesFrom, TailStart;
  }

  lemma GoneRefs(lib: Library, key: Text, s: State, path: Path, t: State)
    requires GoodRefs(lib, key, s.logs, s.kf) && Stale(s) && path in s.logs
    requires t.logs == s.logs - {path} && t.gone == s.gone + {path} && t.kf == s.kf
    ensures GoodRefs(lib, key, t.logs, t.kf) && Stale(t)
  {
    hide RefsOf, Good;
    forall shard: byte, r | r in RefsOf(t.kf, shard) && r.path in t.logs
      ensures ReadsValue(lib, key, t.logs, r)
    {
      assert ReadsValue(lib, key, s.logs, r);
    }
  }

  /** A reference that reads back is available. */
  lemma ReadsIsAvailable(lib: Library, key: Text, logs: Files, r: Reference)
    requires GoodLogs(lib, key, logs)
    ensures ReadsValue(lib, key, logs, r) ==> Available(logs, r)
  {
    hide LinesFrom, Storable;
  }

  /** Compacting drops just the references to segments that are gone. */
  lemma CompactRefs(lib: Library, key: Text, logs: Files, kf: KeyFiles) returns (after: KeyFiles)
    requires GoodLogs(lib, key, logs) && GoodRefs(lib, key, logs, kf)
    ensures after == CompactFrom(logs, kf, 0).0 && Good(lib, after)
    ensures forall shard: byte, r: Reference ::
              r in RefsOf(after, shard) <==> r in RefsOf(kf, shard) && r.path in logs
  {
    hide CompactFrom, Good, ReadsValue, GoodLogs, ScanFile, Available;
    after := CompactFrom(logs, kf, 0).0;
    CompactKeepsGood(lib, logs, kf);
    CompactEffect(lib, logs, kf, 0);
    forall shard: byte, r: Reference
      ensures r in RefsOf(after, shard) <==> r in RefsOf(kf, shard) && r.path in logs
    {
      assert CompactedTo(logs, kf, after, shard);
      KeptRefs(logs, kf, after, shard, r);
      ReadsIsAvailable(lib, key, logs, r);
      AvailableIsThere(logs, r);
    }
  }

  lemma AvailableIsThere(logs: Files, r: Reference)
    ensures Available(logs, r) ==> r.path in logs
  {
  }

  lemma KeptRefs(logs: Files, kf: KeyFiles, after: KeyFiles, shard: byte, r: Reference)
    requires CompactedTo(logs, kf, after, shard)
    ensures r in RefsOf(after, shard) <==> r in RefsOf(kf, shard) && Available(logs, r)
  {
    hide ScanFile, Available, Filter;
    FilterKeepsMembers((q: Reference) => Available(logs, q), RefsOf(kf, shard));
    assert RefsOf(after, shard) == AvailableRefs(logs, kf, shard);
  }

  lemma CompactKeeps(lib: Library, key: Text, s: State, t: State)
    requires Inv(lib, key, s) && Step(lib, key, s, Compact, t)
    ensures Inv(lib, key, t)
  {
    hide LinesFrom, GoodLogs, GoodNotes, Scarred, ReadsValue, RefsOf, CompactFrom, Storable, Good;
    var _ := CompactRefs(lib, key, s.logs, s.kf);
    SameNotes(lib, key, s, t);
    SameScars(s, t);
    forall p, l | Due(s, p, l) && Covered(lib, key, s, p, l)
      ensures Covered(lib, key, t, p, l)
    {
      var v := lib.valueOf(l.text, key);
      if v.Some? && Referenced(lib, s.kf, p, l, v.value) {
        var r :| r in RefsOf(s.kf, lib.shardOf(v.value)) && r.path == p && r.offset == l.offset
                 && r.length == |l.text| && r.value == v.value;
        assert r in RefsOf(t.kf, lib.shardOf(v.value));
      }
    }
  }

  lemma StepKeeps(lib: Library, key: Text, s: State, a: Action, t: State)
    requires Inv(lib, key, s) && Step(lib, key, s, a, t)
    ensures Inv(lib, key, t)
  {
    hide Inv;
    match a {
      case Write(path, line) => WriteKeeps(lib, key, s, path, line, t);
      case Tear(path, line, n) => TearKeeps(lib, key, s, path, line, n, t);
      case Observe(n) => ObserveKeeps(lib, key, s, n, t);
      case ReadLine => ReadLineKeeps(lib, key, s, t);
      case BeginCreate => ResetKeeps(lib, key, s, a, t);
      case DeleteKey => ResetKeeps(lib, key, s, a, t);
      case DeleteSegment(path) => DeleteSegmentKeeps(lib, key, s, path, t);
      case Compact => CompactKeeps(lib, key, s, t);
      case _ => BuildStepsKeep(lib, key, s, a, t);
    }
  }

  // ----- Agreement over runs -----

  ghost predicate Run(lib: Library, key: Text, states: seq<State>, actions: seq<Action>) {
    && |states| == |actions| + 1
    && states[0].waiting == multiset{} && states[0].kf == map[] && states[0].mode.Absent?
    && GoodLogs(lib, key, states[0].logs) && Scarred(states[0]) && states[0].gone == {}
    && forall i :: 0 <= i < |actions| ==> Step(lib, key, states[i], actions[i], states[i + 1])
  }

  lemma {:induction false} RunKeeps(lib: Library, key: Text, states: seq<State>, actions: seq<Action>)
    requires Run(lib, key, states, actions)
    ensures Inv(lib, key, states[|actions|])
  {
    hide ScanFile, Records, LinesFrom, Step;
    var n := |actions|;
    if n > 0 {
      RunKeeps(lib, key, states[..n], actions[..n - 1]);
      StepKeeps(lib, key, states[n - 1], actions[n - 1], states[n]);
    }
  }

  /** Whatever the interleaving and whatever failing writes leave behind, every
      reference to a segment that is there always reads back a text with exactly
      its value, and the others are to segments deleted since the index was last
      compacted; and once the index is built and no write awaits its observation,
      every intact line of the store that carries the key has a reference. */
  lemma IndexAgrees(lib: Library, key: Text, states: seq<State>, actions: seq<Action>)
    requires Run(lib, key, states, actions)
    ensures var s := states[|actions|];
            && (forall shard: byte, r :: r in RefsOf(s.kf, shard) ==>
                  if r.path in s.logs then ReadsValue(lib, key, s.logs, r) else r.path in s.gone)
            && (s.mode.Live? && s.waiting == multiset{} ==>
                  forall p, l, v :: Due(s, p, l) && lib.valueOf(l.text, key) == Some(v) ==>
                      Referenced(lib, s.kf, p, l, v))
  {
    hide ScanFile, Records, LinesFrom, Step, GoodLogs, Scarred;
    RunKeeps(lib, key, states, actions);
    var s := states[|actions|];
    if s.mode.Live? && s.waiting == multiset{} {
      forall p, l, v | Due(s, p, l) && lib.valueOf(l.text, key) == Some(v)
        ensures Referenced(lib, s.kf, p, l, v)
      {
        assert Covered(lib, key, s, p, l);
      }
    }
  }

  // ----- Which lines are intact -----

  /** Bytes of failed writes put no other line's start among the torn. */
  lemma IntactStays(lib: Library, key: Text, s: State, a: Action, t: State, p: Path, l: Located)
    requires Inv(lib, key, s) && Step(lib, key, s, a, t) && Due(s, p, l) && a != DeleteSegment(p)
    ensures Due(t, p, l)
  {
    hide LinesFrom, GoodNotes, GoodRefs, Progress, GoodLogs, Faithful, Indexable, Appendable, TailStart, AddRef, Torn,
         Capped;
    if a.Write? {
      StoredIsOneLine(Capped(a.line));
      PieceKeepsIntact(lib, key, s, a.path, Stored(Capped(a.line)), p, l);
    } else if a.Tear? {
      TornIsOneLine(a.line, a.n);
      PieceKeepsIntact(lib, key, s, a.path, Torn(a.line, a.n), p, l);
    }
  }

  lemma PieceKeepsIntact(lib: Library, key: Text, s: State, path: Path, x: Text, p: Path, l: Located)
    requires Inv(lib, key, s) && Appendable(lib, key, s.logs, path, x) && OneLine(x) && Due(s, p, l)
    ensures p in Appended(s.logs, path, x) && l in LinesOf(Appended(s.logs, path, x), p)
    ensures p == path ==> l.offset != TailStart(BytesOf(s.logs, path))
  {
    hide LinesFrom, GoodNotes, GoodRefs, Progress, GoodLogs, Appendable;
    DueInside(s, p, l);
    PieceLines(lib, key, s.logs, path, x);
  }

  /** A line written to a file without an unfinished line is intact. */
  lemma WholeWriteIsIntact(lib: Library, key: Text, s: State, path: Path, line: Text, t: State)
    requires Inv(lib, key, s) && Step(lib, key, s, Write(path, line), t) && Whole(BytesOf(s.logs, path))
    ensures Due(t, path, Located(|BytesOf(s.logs, path)|, Capped(line)))
  {
    hide LinesFrom, GoodNotes, GoodRefs, Progress, GoodLogs, Faithful, Indexable, Appendable, Capped;
    AppendLine(BytesOf(s.logs, path), Capped(line), 0);
  }

  lemma {:induction false} IntactToTheEnd(lib: Library, key: Text, states: seq<State>, actions: seq<Action>, i: nat,
                                          p: Path, l: Located)
    requires Run(lib, key, states, actions) && i <= |actions| && Due(states[i], p, l)
    requires forall j :: i <= j < |actions| ==> actions[j] != DeleteSegment(p)
    ensures Due(states[|actions|], p, l)
    decreases |actions| - i
  {
    hide Step, Due, GoodLogs, Scarred, Inv;
    if i < |actions| {
      RunKeeps(lib, key, states[..i + 1], actions[..i]);
      IntactStays(lib, key, states[i], actions[i], states[i + 1], p, l);
      IntactToTheEnd(lib, key, states, actions, i + 1, p, l);
    }
  }

  /** So every accepted line carrying the key has its reference in the end,
      unless a failed write had left its file in the middle of a line, or its
      segment has been deleted. */
  lemma AcceptedLinesAreIndexed(lib: Library, key: Text, states: seq<State>, actions: seq<Action>, i: nat, v: Text)
    requires Run(lib, key, states, actions) && i < |actions| && actions[i].Write?
    requires Whole(BytesOf(states[i].logs, actions[i].path)) && lib.valueOf(actions[i].line, key) == Some(v)
    requires states[|actions|].mode.Live? && states[|actions|].waiting == multiset{}
    requires forall j :: i < j < |actions| ==> actions[j] != DeleteSegment(actions[i].path)
    ensures var b := BytesOf(states[i].logs, actions[i].path);
            Referenced(lib, states[|actions|].kf, actions[i].path, Located(|b|, Capped(actions[i].line)), v)
  {
    hide GoodLogs, Scarred, Inv, Due, Capped;
    var b, path, line := BytesOf(states[i].logs, actions[i].path), actions[i].path, actions[i].line;
    RunKeeps(lib, key, states[..i + 1], actions[..i]);
    WholeWriteIsIntact(lib, key, states[i], path, line, states[i + 1]);
    assert lib.valueOf(Capped(line), key) == Some(v);
    hide Step;
    IntactToTheEnd(lib, key, states, actions, i + 1, path, Located(|b|, Capped(line)));
    IndexAgrees(lib, key, states, actions);
  }

  /** Without failed writes every line is intact. */
  lemma {:induction false} NothingTorn(lib: Library, key: Text, states: seq<State>, actions: seq<Action>)
    requires Run(lib, key, states, actions) && states[0].torn == {} && forall a :: a in actions ==> !a.Tear?
    ensures states[|actions|].torn == {}
  {
    hide GoodLogs, Scarred;
    var n := |actions|;
    if n > 0 {
      NothingTorn(lib, key, states[..n], actions[..n - 1]);
      assert actions[n - 1] in actions;
      assert Step(lib, key, states[n - 1], actions[n - 1], states[n]);
    }
  }

  // ----- Lines that capping changes -----

  /** Observing a line the index has no reference to yet leaves the index in
      agreement with what was stored if and only if capping changed neither the
      value the line carries nor the time that goes with it. */
  lemma ObservedRightExactly(lib: Library, key: Text, logs: Files, kf: KeyFiles, path: Path, l: Located, line: Text)
    requires GoodRefs(lib, key, logs, kf) && Stands(lib, key, logs, path, l) && l.text == Capped(line)
    requires Indexable(lib, key, path, line)
    requires forall v :: !Referenced(lib, kf, path, l, v)
    ensures var after := AddRef(lib, kf, LineRef(lib, key, path, l.offset, |l.text|, line));
            Faithful(lib, key, line) <==> AgreesOn(lib, key, logs, after, path, l)
  {
    hide AppendTo, Canonical, GoodRefs, Stands, Referenced, Capped, TimedBy, SameTime;
    var ref := LineRef(lib, key, path, l.offset, |l.text|, line);
    LineRefTimed(lib, key, path, l.offset, |l.text|, line, l.text);
    if Faithful(lib, key, line) {
      AddedRef(lib, key, logs, kf, path, l, line);
    } else if ref.Some? {
      WrongRef(lib, key, logs, kf, path, l, ref.value);
    }
  }

  lemma WrongRef(lib: Library, key: Text, logs: Files, kf: KeyFiles, path: Path, l: Located, r: Reference)
    requires GoodRefs(lib, key, logs, kf) && Stands(lib, key, logs, path, l)
    requires r.path == path && r.offset == ToInt64(l.offset) && r.length == |l.text| % TWO_32 && Fits(r)
    requires lib.valueOf(l.text, key) != Some(r.value) || !TimedBy(lib, Canonical(r), l.text)
    ensures !GoodRefs(lib, key, logs, AppendTo(lib, kf, r))
  {
    hide AppendTo, Canonical, Stands, Good, TimedBy;
    RefReads(lib, key, logs, path, l, r);
    GoodRefsGood(lib, key, logs, kf);
    AppendAdds(lib, kf, r);
    var c, shard, after := Canonical(r), lib.shardOf(r.value), AppendTo(lib, kf, r);
    assert !ReadsValue(lib, key, logs, c);
    assert RefsOf(after, shard)[|RefsOf(kf, shard)|] == c;
    assert c in RefsOf(after, shard);
  }

  /** No text that carries a JSON key ends in the marker's bracket. */
  ghost predicate JsonValues(lib: Library, key: Text) {
    forall text :: lib.valueOf(text, key).Some? ==> text != [] && text[|text| - 1] != 0x5D
  }

  /** The live index is given the line before capping.  As every line that was
      cut ends in the bracket, what it indexes is what the stored line gives
      exactly for the lines that were not cut and those without the key. */
  lemma FaithfulExactly(lib: Library, key: Text, line: Text)
    requires JsonValues(lib, key)
    ensures Faithful(lib, key, line) <==> |line| <= MAX_LINE_BYTES || lib.valueOf(line, key).None?
  {
    if |line| > MAX_LINE_BYTES {
      var stored := Capped(line);
      assert stored[|stored| - 1] == MARKER[|MARKER| - 1] == 0x5D;
    }
  }

  /** The index and the store agree on this line: every reference reads back its
      value, and the line has its reference if it carries the key. */
  ghost predicate AgreesOn(lib: Library, key: Text, logs: Files, kf: KeyFiles, path: Path, l: Located) {
    && GoodRefs(lib, key, logs, kf)
    && forall v :: lib.valueOf(l.text, key) == Some(v) ==> Referenced(lib, kf, path, l, v)
  }

  /** So observing a stored line leaves the index in agreement if and only if
      the line is within the cap, or does not carry the key. */
  lemma ObservedRightWithinCap(lib: Library, key: Text, logs: Files, kf: KeyFiles, path: Path, l: Located, line: Text)
    requires GoodRefs(lib, key, logs, kf) && Stands(lib, key, logs, path, l) && l.text == Capped(line)
    requires Indexable(lib, key, path, line) && JsonValues(lib, key)
    requires forall v :: !Referenced(lib, kf, path, l, v)
    ensures AgreesOn(lib, key, logs, AddRef(lib, kf, LineRef(lib, key, path, l.offset, |l.text|, line)), path, l)
       <==> |line| <= MAX_LINE_BYTES || lib.valueOf(line, key).None?
  {
    hide GoodRefs, Stands, Referenced, Capped, AddRef, LineRef, JsonValues;
    ObservedRightExactly(lib, key, logs, kf, path, l, line);
    FaithfulExactly(lib, key, line);
  }

  /** A line over the cap on which they do not agree. */
  lemma OverCapLineDisagrees() returns (lib: Library, key: Text, logs: Files, path: Path, line: Text)
    ensures JsonValues(lib, key) && logs == map[path := File(Stored(Capped(line)), 0)]
    ensures var l := Located(0, Capped(line));
            var ref := LineRef(lib, key, path, 0, |l.text|, line);
            Stands(lib, key, logs, path, l) && !AgreesOn(lib, key, logs, AddRef(lib, map[], ref), path, l)
  {
    hide LineRef, AddRef, Capped;
    key, path := [], Path(Dir([], [], []), []);
    lib := Library((text, _) => if text != [] && text[|text| - 1] == 0x7D then Some([]) else None, _ => None, _ => 0);
    line := seq(MAX_LINE_BYTES + 1, _ => 0x7D);
    var l := Located(0, Capped(line));
    logs := map[path := File(Stored(Capped(line)), 0)];
    assert Stored(l.text)[0..|l.text|] == l.text;
    ObservedRightWithinCap(lib, key, logs, map[], path, l, line);
  }

  /** Why a deleted segment must not come back before the index is compacted: a
      reference left from before is available again, and reads another line. */
  lemma RewrittenSegmentMisleads() returns (lib: Library, key: Text, r: Reference, before: Files, after: Files)
    ensures r.path in before && r.path in after && Available(after, r)
    ensures ReadsValue(lib, key, before, r) && !ReadsValue(lib, key, after, r)
  {
    var path := Path(Dir([], [], []), []);
    var a, b: Text := [0x61], [0x62];
    key, lib := [], Library((text, _) => if text == [0x61] then Some([]) else None, _ => None, _ => 0);
    r := Reference(ZERO_TIME, false, path, [], 0, 1);
    before, after := map[path := File(Stored(a), 0)], map[path := File(Stored(b), 0)];
    assert Stored(a)[0..1] == a && Stored(b)[0..1] == b;
  }
}
