/** Timestamp-cursor paging over the merged lines of several pods
    (api/merge.go and mergedLogsPage in api/workload_service.go). */
module MergedPaging {
  import opened Bytes
  import opened Ordering
  import opened Seqs
  import opened Writer

  /** A stored line and the time it begins with (the zero time if none). */
  datatype Entry = Entry(ts: Time, line: Text)

  /** logEntry: with its insertion order, the tiebreaker. */
  datatype LogEntry = LogEntry(entry: Entry, idx: nat)

  predicate TimeLess(a: Entry, b: Entry) {
    a.ts < b.ts
  }

  /** logEntryLess */
  predicate LogEntryLess(a: LogEntry, b: LogEntry) {
    if a.entry.ts == b.entry.ts then a.idx < b.idx else a.entry.ts < b.entry.ts
  }

  lemma TimeOrders()
    ensures WeakOrder(TimeLess) && WeakOrder(LogEntryLess)
  {
    forall a, b, c
      ensures Coherent(LogEntryLess, a, b, c)
    {
    }
    forall a, b, c
      ensures Coherent(TimeLess, a, b, c)
    {
    }
  }

  // ----- Page tokens -----

  datatype NanosToken = NanosToken(nanos: int64, backward: bool)

  /** encodeForwardNanosToken and encodeBackwardNanosToken, before base64. */
  function EncodeToken(t: NanosToken): (b: Text)
    ensures |b| == if t.backward then 9 else 8
  {
    if t.backward then [1] + BigEndian(ToUint64(t.nanos), 8) else BigEndian(ToUint64(t.nanos), 8)
  }

  function DecodeToken(b: Text): Option<NanosToken> {
    WidthBounds();
    if |b| == 8 then Some(NanosToken(ToInt64(FromBigEndian(b)), false))
    else if |b| == 9 && b[0] == 1 then Some(NanosToken(ToInt64(FromBigEndian(b[1..])), true))
    else None
  }

  lemma TokenDecodes(t: NanosToken)
    ensures DecodeToken(EncodeToken(t)) == Some(t)
  {
    hide BigEndian, FromBigEndian;
    WidthBounds();
    BigEndianRoundTrip(ToUint64(t.nanos), 8);
    assert ([1] + BigEndian(ToUint64(t.nanos), 8))[1..] == BigEndian(ToUint64(t.nanos), 8);
  }

  /** Tokens decode to what they encode, and nothing else decodes. */
  lemma TokenRoundTrip(t: NanosToken, b: Text)
    ensures DecodeToken(b) == Some(t) <==> b == EncodeToken(t)
  {
    hide BigEndian, FromBigEndian;
    TokenDecodes(t);
    WidthBounds();
    if DecodeToken(b) == Some(t) {
      var n := FromBigEndian(if t.backward then b[1..] else b);
      BigEndianInverse(if t.backward then b[1..] else b);
      SignedAndBack(n);
      assert t.backward ==> b == [b[0]] + b[1..];
    }
  }

  lemma SignedAndBack(n: uint64)
    ensures ToUint64(ToInt64(n)) == n
  {
  }

  // ----- One request -----

  /** `token` is empty for none; bounds are Unix seconds, 0 for unbounded. */
  datatype Request = Request(startTime: int, endTime: int, pageSize: int, token: Text, last: bool)

  datatype Reply =
    | BadToken
    | Reply(entries: seq<Entry>, next: Text, prev: Text)

  function Bound(seconds: int): Option<Time> {
    if seconds == 0 || seconds * SECOND == ZERO_TIME then None else Some(seconds * SECOND)
  }

  predicate InRange(start: Option<Time>, end: Option<Time>, e: Entry) {
    (start.Some? ==> start.value <= e.ts) && (end.Some? ==> e.ts <= end.value)
  }

  /** A cursor counts only when its nanoseconds are positive. */
  predicate PastCursor(after: int64, before: int64, e: Entry) {
    (after > 0 ==> after < e.ts) && (before > 0 ==> e.ts < before)
  }

  /** Every line in range, in time order, ties in scan order. */
  function Timeline(all: seq<Entry>, req: Request): seq<Entry> {
    SortBy(TimeLess, Filter(e => InRange(Bound(req.startTime), Bound(req.endTime), e), all))
  }

  function Window(timeline: seq<Entry>, after: int64, before: int64): seq<Entry> {
    Filter(e => PastCursor(after, before, e), timeline)
  }

  function TokenFor(ts: Time, backward: bool): Text {
    EncodeToken(NanosToken(ToInt64(ts), backward))
  }

  /** The page of a window, and the tokens that go with it. */
  function PageOf(window: seq<Entry>, p: nat, after: int64, before: int64, reversed: bool): Reply {
    var page := if reversed then TakeLast(p, window) else Take(p, window);
    var more := |window| > |page|;
    if page == [] then Reply([], [], [])
    else
      var toPrev, toNext := TokenFor(page[0].ts, true), TokenFor(page[|page| - 1].ts, false);
      if reversed then Reply(page, if before > 0 then toNext else [], if more then toPrev else [])
      else Reply(page, if more then toNext else [], if after > 0 then toPrev else [])
  }

  /** The simple form of a merged page: sort everything, filter, slice. */
  function Answer(all: seq<Entry>, req: Request): Reply {
    var token := if req.token == [] then Some(NanosToken(0, false)) else DecodeToken(req.token);
    if token.None? then BadToken
    else
      var after: int64, before: int64 := if token.value.backward then 0 else token.value.nanos,
                                         if token.value.backward then token.value.nanos else 0;
      PageOf(Window(Timeline(all, req), after, before), PageSize(req.pageSize), after, before, req.last || before > 0)
  }

  // ----- The bounded heap refines it -----

  function Number(entries: seq<Entry>): (r: seq<LogEntry>)
    ensures |r| == |entries|
  {
    seq(|entries|, i requires 0 <= i < |entries| => LogEntry(entries[i], i))
  }

  function Strip(s: seq<LogEntry>): (r: seq<Entry>)
    ensures |r| == |s|
  {
    Mapped((x: LogEntry) => x.entry, s)
  }

  lemma NumberStep(entries: seq<Entry>, e: Entry)
    ensures Number(entries + [e]) == Number(entries) + [LogEntry(e, |entries|)]
  {
  }

  lemma NumberTieless(entries: seq<Entry>)
    ensures Tieless(LogEntryLess, Number(entries))
  {
  }

  /** Sorting by time and insertion order is sorting stably by time. */
  lemma {:induction false} StripSorted(entries: seq<Entry>)
    ensures Strip(SortBy(LogEntryLess, Number(entries))) == SortBy(TimeLess, entries)
    ensures forall x :: x in SortBy(LogEntryLess, Number(entries)) ==> x.idx < |entries|
  {
    hide Insert;
    if entries == [] {
      assert Number(entries) == [];
    } else {
      var n := |entries| - 1;
      var u, e := entries[..n], entries[n];
      assert entries == u + [e];
      StripSorted(u);
      NumberStep(u, e);
      SortByAppend(LogEntryLess, Number(u), LogEntry(e, n));
      SortByAppend(TimeLess, u, e);
      StripInsert(LogEntry(e, n), SortBy(LogEntryLess, Number(u)));
    }
  }

  lemma {:induction false} StripSlot(x: LogEntry, s: seq<LogEntry>)
    requires forall y :: y in s ==> y.idx < x.idx
    ensures Slot(LogEntryLess, x, s) == Slot(TimeLess, x.entry, Strip(s))
  {
    if s != [] {
      assert s[0] in s;
      assert Strip(s)[1..] == Strip(s[1..]);
      StripSlot(x, s[1..]);
    }
  }

  lemma StripInsert(x: LogEntry, s: seq<LogEntry>)
    requires forall y :: y in s ==> y.idx < x.idx
    ensures Strip(Insert(LogEntryLess, x, s)) == Insert(TimeLess, x.entry, Strip(s))
    ensures forall y :: y in Insert(LogEntryLess, x, s) ==> y in s || y == x
  {
    hide Slot;
    StripSlot(x, s);
  }

  /** The state of one request's scan. */
  predicate Wanted(start: Option<Time>, end: Option<Time>, after: int64, before: int64, e: Entry) {
    InRange(start, end, e) && PastCursor(after, before, e)
  }

  /** One segment's lines go through the heap. */
  method ScanChunk(h: PageHeap<LogEntry>, chunk: seq<Text>, stampOf: Text -> Option<Time>, pageSize: nat,
                   start: Option<Time>, end: Option<Time>, after: int64, before: int64,
                   ghost seen: seq<Entry>, insertIdx: nat) returns (insertIdx': nat)
    requires h.less == LogEntryLess
    requires insertIdx == |Filter(e => Wanted(start, end, after, before, e), seen)|
    requires multiset(h.entries) == multiset(Kept(LogEntryLess, h.keepNewest, pageSize,
               Number(Filter(e => Wanted(start, end, after, before, e), seen))))
    modifies h`entries
    ensures var all := Filter(e => Wanted(start, end, after, before, e), seen + Parsed(stampOf, chunk));
            && insertIdx' == |all|
            && multiset(h.entries) == multiset(Kept(LogEntryLess, h.keepNewest, pageSize, Number(all)))
  {
    hide Wanted, Kept, LogEntryLess, InRange, PastCursor;
    insertIdx' := insertIdx;
    ghost var keep := e => Wanted(start, end, after, before, e);
    TimeOrders();
    assert seen + Parsed(stampOf, chunk[..0]) == seen;
    for i := 0 to |chunk|
      invariant insertIdx' == |Filter(keep, seen + Parsed(stampOf, chunk[..i]))|
      invariant multiset(h.entries) == multiset(Kept(LogEntryLess, h.keepNewest, pageSize,
                  Number(Filter(keep, seen + Parsed(stampOf, chunk[..i])))))
    {
      var line := chunk[i];
      var e := Entry(ParseTime(stampOf, line), line);
      ghost var before' := seen + Parsed(stampOf, chunk[..i]);
      assert seen + Parsed(stampOf, chunk[..i + 1]) == before' + [e];
      FilterStep(keep, before', e);
      if Wanted(start, end, after, before, e) {
        ghost var had := Filter(keep, before');
        NumberStep(had, e);
        NumberTieless(had + [e]);
        h.Offer(LogEntry(e, insertIdx'), pageSize, Number(had));
        insertIdx' := insertIdx' + 1;
      }
    }
    assert chunk[..|chunk|] == chunk;
  }

  /** parseLineTimestamp */
  function ParseTime(stampOf: Text -> Option<Time>, line: Text): Time {
    OrZero(stampOf(line))
  }

  function Parsed(stampOf: Text -> Option<Time>, chunk: seq<Text>): (r: seq<Entry>)
    ensures |r| == |chunk|
  {
    seq(|chunk|, i requires 0 <= i < |chunk| => Entry(ParseTime(stampOf, chunk[i]), chunk[i]))
  }

  /** Every line of every chunk, in scan order. */
  function AllEntries(stampOf: Text -> Option<Time>, chunks: seq<seq<Text>>): seq<Entry> {
    if chunks == [] then []
    else AllEntries(stampOf, chunks[..|chunks| - 1]) + Parsed(stampOf, chunks[|chunks| - 1])
  }

  /** mergedLogsPage over the chunks of every pod in turn: memory for one page
      finds the same page as sorting everything. */
  method MergedLogsPage(stampOf: Text -> Option<Time>, chunks: seq<seq<Text>>, req: Request) returns (reply: Reply)
    ensures reply == Answer(AllEntries(stampOf, chunks), req)
  {
    hide Kept, InRange, PastCursor, TimeLess, LogEntryLess, SortBy, Wanted, Take, TakeLast;
    var pageSize := PageSize(req.pageSize);
    var afterNanos: int64, beforeNanos: int64 := 0, 0;
    if req.token != [] {
      var tok := DecodeToken(req.token);
      if tok.None? {
        return BadToken;
      }
      if tok.value.backward {
        beforeNanos := tok.value.nanos;
      } else {
        afterNanos := tok.value.nanos;
      }
    }
    var reversed := req.last || beforeNanos > 0;
    var start, end := Bound(req.startTime), Bound(req.endTime);
    var h, matchingCount := ScanAll(stampOf, chunks, pageSize, start, end, afterNanos, beforeNanos, reversed);
    ghost var all := AllEntries(stampOf, chunks);
    ghost var matching := Filter(e => Wanted(start, end, afterNanos, beforeNanos, e), all);
    TimeOrders();
    NumberTieless(matching);
    HeldPage(LogEntryLess, reversed, pageSize, Number(matching), h.entries);
    PageOfHeap(all, req, start, end, afterNanos, beforeNanos, pageSize, reversed);
    var page := Strip(SortBy(LogEntryLess, h.entries));
    reply := WithTokens(page, matchingCount > |page|, reversed, afterNanos, beforeNanos,
                        Window(Timeline(all, req), afterNanos, beforeNanos), pageSize);
  }

  /** The scan of every file of every pod. */
  method ScanAll(stampOf: Text -> Option<Time>, chunks: seq<seq<Text>>, pageSize: nat, start: Option<Time>,
                 end: Option<Time>, afterNanos: int64, beforeNanos: int64, reversed: bool)
    returns (h: PageHeap<LogEntry>, matchingCount: nat)
    ensures fresh(h) && h.less == LogEntryLess && h.keepNewest == reversed
    ensures var matching := Filter(e => Wanted(start, end, afterNanos, beforeNanos, e), AllEntries(stampOf, chunks));
            && matchingCount == |matching|
            && multiset(h.entries) == multiset(Kept(LogEntryLess, reversed, pageSize, Number(matching)))
  {
    hide Kept, LogEntryLess, Wanted;
    h := new PageHeap(LogEntryLess, reversed);
    matchingCount := 0;
    ghost var keep := e => Wanted(start, end, afterNanos, beforeNanos, e);
    KeptNothing(LogEntryLess, reversed, pageSize, Number([]));
    for i := 0 to |chunks|
      invariant h.less == LogEntryLess && h.keepNewest == reversed
      invariant matchingCount == |Filter(keep, AllEntries(stampOf, chunks[..i]))|
      invariant multiset(h.entries)
             == multiset(Kept(LogEntryLess, reversed, pageSize, Number(Filter(keep, AllEntries(stampOf, chunks[..i])))))
    {
      assert chunks[..i + 1][..i] == chunks[..i];
      matchingCount := ScanChunk(h, chunks[i], stampOf, pageSize, start, end, afterNanos, beforeNanos,
                                 AllEntries(stampOf, chunks[..i]), matchingCount);
    }
    assert chunks[..|chunks|] == chunks;
  }

  /** The tail of mergedLogsPage: which tokens the page gets. */
  method WithTokens(page: seq<Entry>, hasMore: bool, reversed: bool, afterNanos: int64, beforeNanos: int64,
                    ghost window: seq<Entry>, ghost p: nat) returns (reply: Reply)
    requires page == if reversed then TakeLast(p, window) else Take(p, window)
    requires hasMore <==> |window| > |page|
    ensures reply == PageOf(window, p, afterNanos, beforeNanos, reversed)
  {
    hide Take, TakeLast;
    var next: Text, prev: Text := [], [];
    if reversed {
      if hasMore && |page| > 0 {
        prev := TokenFor(page[0].ts, true);
      }
      if beforeNanos > 0 && |page| > 0 {
        next := TokenFor(page[|page| - 1].ts, false);
      }
    } else {
      if hasMore && |page| > 0 {
        next := TokenFor(page[|page| - 1].ts, false);
      }
      if afterNanos > 0 && |page| > 0 {
        prev := TokenFor(page[0].ts, true);
      }
    }
    reply := Reply(page, next, prev);
  }

  lemma PageOfHeap(all: seq<Entry>, req: Request, start: Option<Time>, end: Option<Time>, after: int64, before: int64,
                   p: nat, reversed: bool)
    requires start == Bound(req.startTime) && end == Bound(req.endTime)
    ensures var matching := Filter(e => Wanted(start, end, after, before, e), all);
            var window := Window(Timeline(all, req), after, before);
            var sorted := SortBy(LogEntryLess, Number(matching));
            && |window| == |matching|
            && Strip(Take(p, sorted)) == Take(p, window)
            && Strip(TakeLast(p, sorted)) == TakeLast(p, window)
  {
    hide InRange, PastCursor, TimeLess, LogEntryLess, SortBy;
    var inRange := e => InRange(start, end, e);
    var past := e => PastCursor(after, before, e);
    var wanted := e => Wanted(start, end, after, before, e);
    TimeOrders();
    FilterTwice(past, inRange, wanted, all);
    SortFilter(TimeLess, past, Filter(inRange, all));
    StripSorted(Filter(wanted, all));
  }

  // ----- The timeline, spelled out -----

  lemma {:induction false} EntriesOfJoined(stampOf: Text -> Option<Time>, chunks: seq<seq<Text>>)
    ensures AllEntries(stampOf, chunks) == Parsed(stampOf, Joined(chunks))
  {
    hide ParseTime;
    if chunks != [] {
      var n := |chunks| - 1;
      assert chunks == chunks[..n] + [chunks[n]];
      EntriesOfJoined(stampOf, chunks[..n]);
      JoinedMore(chunks[..n], chunks[n]);
    }
  }

  /** Keeping entries is keeping lines by the entries they give. */
  lemma {:induction false} FilterParsed(stampOf: Text -> Option<Time>, keep: Entry -> bool, keepLine: Text -> bool,
                                        lines: seq<Text>)
    requires forall line :: keepLine(line) == keep(Entry(ParseTime(stampOf, line), line))
    ensures Filter(keep, Parsed(stampOf, lines)) == Parsed(stampOf, Filter(keepLine, lines))
  {
    hide ParseTime;
    if lines != [] {
      var n := |lines| - 1;
      assert Parsed(stampOf, lines)[..n] == Parsed(stampOf, lines[..n]);
      FilterParsed(stampOf, keep, keepLine, lines[..n]);
    }
  }

  /** How often an entry is among those that lines give. */
  lemma {:induction false} ParsedCounts(stampOf: Text -> Option<Time>, lines: seq<Text>, e: Entry)
    ensures multiset(Parsed(stampOf, lines))[e]
         == if e.ts == ParseTime(stampOf, e.line) then multiset(lines)[e.line] else 0
  {
    hide ParseTime;
    if lines != [] {
      var n := |lines| - 1;
      ParsedCounts(stampOf, lines[..n], e);
      assert lines == lines[..n] + [lines[n]];
      assert Parsed(stampOf, lines) == Parsed(stampOf, lines[..n]) + [Entry(ParseTime(stampOf, lines[n]), lines[n])];
    }
  }

  /** A timeline has each line as often as the chunks have it, at the time it
      begins with or at January 1 of year 1 if with none, provided that this is
      neither before the start nor after the end asked for.  A bound that is zero
      as a Unix time or as a calendar time is none. */
  lemma TimelineCounts(stampOf: Text -> Option<Time>, chunks: seq<seq<Text>>, req: Request, e: Entry)
    ensures multiset(Timeline(AllEntries(stampOf, chunks), req))[e]
         == if && e.ts == (if stampOf(e.line).Some? then stampOf(e.line).value else -62_135_596_800 * 1_000_000_000)
               && (req.startTime == 0 || req.startTime == -62_135_596_800 || req.startTime * 1_000_000_000 <= e.ts)
               && (req.endTime == 0 || req.endTime == -62_135_596_800 || e.ts <= req.endTime * 1_000_000_000)
            then multiset(Joined(chunks))[e.line] else 0
  {
    hide Joined, Parsed, AllEntries;
    var keep := e => InRange(Bound(req.startTime), Bound(req.endTime), e);
    SortByMultiset(TimeLess, Filter(keep, AllEntries(stampOf, chunks)));
    FilterCounts(keep, AllEntries(stampOf, chunks), e);
    EntriesOfJoined(stampOf, chunks);
    ParsedCounts(stampOf, Joined(chunks), e);
  }

  /** It is in time order, and lines of the same time are in scan order. */
  lemma TimelineSpelledOut(stampOf: Text -> Option<Time>, chunks: seq<seq<Text>>, req: Request, t: Time)
    ensures var timeline := Timeline(AllEntries(stampOf, chunks), req);
            && (forall i, j :: 0 <= i < j < |timeline| ==> timeline[i].ts <= timeline[j].ts)
            && Mapped((e: Entry) => e.line, Filter((e: Entry) => e.ts == t, timeline))
               == if && (req.startTime == 0 || req.startTime == -62_135_596_800 || req.startTime * 1_000_000_000 <= t)
                     && (req.endTime == 0 || req.endTime == -62_135_596_800 || t <= req.endTime * 1_000_000_000)
                  then Filter(line => t == (if stampOf(line).Some? then stampOf(line).value
                                            else -62_135_596_800 * 1_000_000_000), Joined(chunks))
                  else []
  {
    hide Joined, Parsed, AllEntries, SortBy, InRange, Filter, TimeLess, WeakOrder;
    var all, lines, start, end := AllEntries(stampOf, chunks), Joined(chunks), Bound(req.startTime), Bound(req.endTime);
    TimelineOrdered(all, req);
    EntriesOfJoined(stampOf, chunks);
    AtTime(all, req, t);
    var keep := (e: Entry) => e.ts == t && InRange(start, end, e);
    InRangeAt(req, t);
    if InRange(start, end, Entry(t, [])) {
      LinesAtTime(stampOf, lines, keep, t);
    } else {
      FilterNone(keep, Parsed(stampOf, lines));
    }
  }

  lemma AtTime(all: seq<Entry>, req: Request, t: Time)
    ensures Filter((e: Entry) => e.ts == t, Timeline(all, req))
         == Filter((e: Entry) => e.ts == t && InRange(Bound(req.startTime), Bound(req.endTime), e), all)
  {
    hide InRange, Bound, SortBy, Filter, WeakOrder;
    var atT := (e: Entry) => e.ts == t;
    var inRange := e => InRange(Bound(req.startTime), Bound(req.endTime), e);
    TimeOrders();
    SortFilter(TimeLess, atT, Filter(inRange, all));
    SortTied(TimeLess, Filter(atT, Filter(inRange, all)));
    FilterTwice(atT, inRange, (e: Entry) => e.ts == t && InRange(Bound(req.startTime), Bound(req.endTime), e), all);
  }

  lemma InRangeAt(req: Request, t: Time)
    ensures forall e: Entry :: e.ts == t ==>
              (InRange(Bound(req.startTime), Bound(req.endTime), e)
               <==> && (req.startTime == 0 || req.startTime == -62_135_596_800
                        || req.startTime * 1_000_000_000 <= t)
                    && (req.endTime == 0 || req.endTime == -62_135_596_800 || t <= req.endTime * 1_000_000_000))
  {
  }

  lemma LinesAtTime(stampOf: Text -> Option<Time>, lines: seq<Text>, keep: Entry -> bool, t: Time)
    requires forall e: Entry :: keep(e) <==> e.ts == t
    ensures Mapped((e: Entry) => e.line, Filter(keep, Parsed(stampOf, lines)))
         == Filter(line => t == (if stampOf(line).Some? then stampOf(line).value
                                 else -62_135_596_800 * 1_000_000_000), lines)
  {
    hide Filter;
    var keepLine := line => keep(Entry(ParseTime(stampOf, line), line));
    FilterParsed(stampOf, keep, keepLine, lines);
    FilterSame(keepLine, line => t == (if stampOf(line).Some? then stampOf(line).value
                                       else -62_135_596_800 * 1_000_000_000), lines);
    var kept := Filter(keepLine, lines);
    assert Mapped((e: Entry) => e.line, Parsed(stampOf, kept)) == kept;
  }

  // ----- One page, spelled out -----

  /** A page is the first entries past its token, or the last before it, the last
      page the last of all.  It has a next token if entries are left after it, or
      it was reached going back, and a prev token the other way round. */
  lemma PageSpelledOut(all: seq<Entry>, req: Request, token: NanosToken)
    requires if req.token == [] then token == NanosToken(0, false) else req.token == EncodeToken(token)
    ensures var p := if req.pageSize <= 0 then 200 else if req.pageSize > 1000 then 1000 else req.pageSize;
            var n := token.nanos;
            var window := Filter((e: Entry) => n <= 0 || (if token.backward then e.ts < n else n < e.ts),
                                 Timeline(all, req));
            var page, back, more := Answer(all, req), token.backward && n > 0, |window| > p;
            && page.Reply?
            && page.entries == (if !more then window
                                else if req.last || back then window[|window| - p..] else window[..p])
            && (if window != [] && (if req.last || back then back else more)
                then DecodeToken(page.next) == Some(NanosToken(ToInt64(page.entries[|page.entries| - 1].ts), false))
                else page.next == [])
            && (if window != [] && (if req.last || back then more else n > 0)
                then DecodeToken(page.prev) == Some(NanosToken(ToInt64(page.entries[0].ts), true))
                else page.prev == [])
  {
    hide Timeline, EncodeToken, DecodeToken, Filter, PageOf, ToInt64, PastCursor;
    var timeline, n := Timeline(all, req), token.nanos;
    TokenDecodes(token);
    var after, before := if token.backward then 0 else n, if token.backward then n else 0;
    WindowPast(timeline, token);
    PageOfSpelledOut(Window(timeline, after, before), PageSize(req.pageSize), after, before, req.last || before > 0);
  }

  lemma WindowPast(timeline: seq<Entry>, token: NanosToken)
    ensures var n := token.nanos;
            Window(timeline, if token.backward then 0 else n, if token.backward then n else 0)
            == Filter((e: Entry) => n <= 0 || (if token.backward then e.ts < n else n < e.ts), timeline)
  {
    var n := token.nanos;
    var after: int64, before: int64 := if token.backward then 0 else n, if token.backward then n else 0;
    FilterSame(e => PastCursor(after, before, e),
               (e: Entry) => n <= 0 || (if token.backward then e.ts < n else n < e.ts), timeline);
  }

  lemma PageOfSpelledOut(window: seq<Entry>, p: nat, after: int64, before: int64, reversed: bool)
    requires 0 < p
    ensures var page, more := PageOf(window, p, after, before, reversed), |window| > p;
            && page.Reply?
            && page.entries == (if !more then window
                                else if reversed then window[|window| - p..] else window[..p])
            && (if window != [] && (if reversed then before > 0 else more)
                then DecodeToken(page.next) == Some(NanosToken(ToInt64(page.entries[|page.entries| - 1].ts), false))
                else page.next == [])
            && (if window != [] && (if reversed then more else after > 0)
                then DecodeToken(page.prev) == Some(NanosToken(ToInt64(page.entries[0].ts), true))
                else page.prev == [])
  {
    hide DecodeToken, EncodeToken, ToInt64;
    var page := if reversed then TakeLast(p, window) else Take(p, window);
    if page != [] {
      TokenDecodes(NanosToken(ToInt64(page[0].ts), true));
      TokenDecodes(NanosToken(ToInt64(page[|page| - 1].ts), false));
    }
  }

  // ----- Following tokens -----

  /** How many entries of a timeline come before `t`. */
  function Below(timeline: seq<Entry>, t: Time): (k: nat)
    ensures k <= |timeline|
  {
    if timeline == [] || timeline[0].ts >= t then 0 else 1 + Below(timeline[1..], t)
  }

  ghost predicate InTimeOrder(s: seq<Entry>) {
    forall i, j :: 0 <= i < j < |s| ==> s[i].ts <= s[j].ts
  }

  lemma {:induction false} BelowSplits(timeline: seq<Entry>, t: Time)
    requires InTimeOrder(timeline)
    ensures forall i :: 0 <= i < Below(timeline, t) ==> timeline[i].ts < t
    ensures forall i :: Below(timeline, t) <= i < |timeline| ==> t <= timeline[i].ts
  {
    if timeline != [] && timeline[0].ts < t {
      BelowSplits(timeline[1..], t);
      assert forall i :: 0 < i < |timeline| ==> timeline[i] == timeline[1..][i - 1];
    }
  }

  lemma {:induction false} BelowIs(timeline: seq<Entry>, t: Time, k: nat)
    requires k <= |timeline|
    requires forall i :: 0 <= i < k ==> timeline[i].ts < t
    requires k < |timeline| ==> t <= timeline[k].ts
    ensures Below(timeline, t) == k
  {
    if k > 0 {
      BelowIs(timeline[1..], t, k - 1);
    }
  }

  lemma TimelineOrdered(all: seq<Entry>, req: Request)
    ensures InTimeOrder(Timeline(all, req))
  {
    hide InRange;
    TimeOrders();
    var kept := Filter(e => InRange(Bound(req.startTime), Bound(req.endTime), e), all);
    SortBySorted(TimeLess, kept);
    var s := SortBy(TimeLess, kept);
    forall i, j | 0 <= i < j < |s|
      ensures s[i].ts <= s[j].ts
    {
      assert !TimeLess(s[j], s[i]);
    }
  }

  /** A cursor cuts a timeline in two. */
  lemma CursorCuts(timeline: seq<Entry>, after: int64, before: int64)
    requires InTimeOrder(timeline)
    ensures after > 0 && before <= 0 ==> Window(timeline, after, before) == timeline[Below(timeline, after + 1)..]
    ensures after <= 0 && before > 0 ==> Window(timeline, after, before) == timeline[..Below(timeline, before)]
    ensures after <= 0 && before <= 0 ==> Window(timeline, after, before) == timeline
  {
    hide Below;
    var past := e => PastCursor(after, before, e);
    if after > 0 && before <= 0 {
      BelowSplits(timeline, after + 1);
      CutFilter(past, timeline, Below(timeline, after + 1), false);
    } else if after <= 0 && before > 0 {
      BelowSplits(timeline, before);
      CutFilter(past, timeline, Below(timeline, before), true);
    } else if after <= 0 && before <= 0 {
      FilterAll(past, timeline);
    }
  }

  lemma CutFilter(keep: Entry -> bool, s: seq<Entry>, k: nat, front: bool)
    requires k <= |s|
    requires forall i :: 0 <= i < |s| ==> (keep(s[i]) <==> (front <==> i < k))
    ensures Filter(keep, s) == if front then s[..k] else s[k..]
  {
    hide Filter;
    assert s == s[..k] + s[k..];
    SidesOfCut(keep, s, k, front);
    FilterSides(keep, s[..k], s[k..], front);
  }

  lemma SidesOfCut(keep: Entry -> bool, s: seq<Entry>, k: nat, front: bool)
    requires k <= |s|
    requires forall i :: 0 <= i < |s| ==> (keep(s[i]) <==> (front <==> i < k))
    ensures forall x :: x in s[..k] ==> keep(x) == front
    ensures forall x :: x in s[k..] ==> keep(x) != front
  {
  }

  lemma FilterSides<T>(keep: T -> bool, a: seq<T>, b: seq<T>, front: bool)
    requires forall x :: x in a ==> keep(x) == front
    requires forall x :: x in b ==> keep(x) != front
    ensures Filter(keep, a + b) == if front then a else b
  {
    hide Filter;
    FilterConcat(keep, a, b);
    if front {
      FilterAll(keep, a);
      FilterNone(keep, b);
      assert a + [] == a;
    } else {
      FilterNone(keep, a);
      FilterAll(keep, b);
      assert [] + b == b;
    }
  }

  /** Times as Go gives them in 64-bit nanoseconds, or the zero time. */
  ghost predicate Representable(s: seq<Entry>) {
    forall i :: 0 <= i < |s| ==> -TWO_63 <= s[i].ts < TWO_63 || s[i].ts == ZERO_TIME
  }

  /** Of these, a token carries the positive ones as they are, and the others as
      a number that the server takes for no cursor. */
  lemma CarriedTime(s: seq<Entry>, i: nat)
    requires Representable(s) && i < |s|
    ensures s[i].ts < TWO_63 && (if s[i].ts > 0 then ToInt64(s[i].ts) == s[i].ts else ToInt64(s[i].ts) <= 0)
  {
  }

  /** What the client collects from position `k` of the timeline by following
      next tokens: the next page begins past the last page's last time. */
  function ForwardPages(timeline: seq<Entry>, p: nat, k: nat): seq<seq<Entry>>
    requires k <= |timeline| && 0 < p
    decreases |timeline| - k
  {
    var page := Take(p, timeline[k..]);
    if |timeline| - k <= p then [page]
    else
      var m := Below(timeline, page[p - 1].ts + 1);
      [page] + if k < m then ForwardPages(timeline, p, m) else []
  }

  function Follow(req: Request, token: Text): Request {
    req.(token := token, last := false)
  }

  /** How the server answers the token of any boundary time whatever: from past
      the number it decodes to if that is positive, else with the first page. */
  lemma TokenAnswer(all: seq<Entry>, req: Request, ts: Time)
    ensures var timeline, p, n := Timeline(all, req), PageSize(req.pageSize), ToInt64(ts);
            && Answer(all, Follow(req, TokenFor(ts, false)))
               == (if n > 0 then PageOf(timeline[Below(timeline, n + 1)..], p, n, 0, false)
                   else PageOf(timeline, p, 0, 0, false))
            && Answer(all, Follow(req, TokenFor(ts, true)))
               == (if n > 0 then PageOf(timeline[..Below(timeline, n)], p, 0, n, true)
                   else PageOf(timeline, p, 0, 0, false))
  {
    hide Timeline, PageOf, Window, EncodeToken, DecodeToken, Below;
    var n := ToInt64(ts);
    TimelineOrdered(all, req);
    TokenDecodes(NanosToken(n, false));
    TokenDecodes(NanosToken(n, true));
    EncodedNotEmpty(NanosToken(n, false));
    EncodedNotEmpty(NanosToken(n, true));
    TimelineFollows(all, req, TokenFor(ts, false));
    TimelineFollows(all, req, TokenFor(ts, true));
    CursorCuts(Timeline(all, req), n, 0);
    CursorCuts(Timeline(all, req), 0, n);
    NoCursor(Timeline(all, req), PageSize(req.pageSize), n);
  }

  /** A number that is not positive is no cursor. */
  lemma NoCursor(window: seq<Entry>, p: nat, n: int64)
    ensures n <= 0 ==> PageOf(window, p, n, 0, false) == PageOf(window, p, 0, 0, false)
    ensures n <= 0 ==> PageOf(window, p, 0, n, false) == PageOf(window, p, 0, 0, false)
  {
  }

  lemma FirstAnswer(all: seq<Entry>, req: Request)
    requires req.token == []
    ensures Answer(all, req) == PageOf(Timeline(all, req), PageSize(req.pageSize), 0, 0, req.last)
  {
    hide Timeline, PageOf, Window;
    TimelineOrdered(all, req);
    CursorCuts(Timeline(all, req), 0, 0);
  }

  lemma TimelineFollows(all: seq<Entry>, req: Request, token: Text)
    ensures Timeline(all, Follow(req, token)) == Timeline(all, req)
  {
  }

  lemma EncodedNotEmpty(t: NanosToken)
    ensures EncodeToken(t) != []
  {
  }

  /** Each page follows the one before without repeating it, and skips only
      entries tied with its last time. */
  ghost predicate CoversForward(timeline: seq<Entry>, k: nat, pages: seq<seq<Entry>>)
    decreases |pages|
  {
    && pages != [] && k + |pages[0]| <= |timeline| && pages[0] == timeline[k..k + |pages[0]|]
    && if |pages| == 1 then k + |pages[0]| == |timeline|
       else
         && pages[0] != []
         && exists m :: k + |pages[0]| <= m <= |timeline| && CoversForward(timeline, m, pages[1..])
                        && forall i :: k + |pages[0]| <= i < m ==> timeline[i].ts == timeline[k + |pages[0]| - 1].ts
  }

  ghost predicate CoversBackward(timeline: seq<Entry>, k: nat, pages: seq<seq<Entry>>)
    decreases |pages|
  {
    && pages != [] && |pages[0]| <= k <= |timeline| && pages[0] == timeline[k - |pages[0]|..k]
    && if |pages| == 1 then k == |pages[0]|
       else
         && pages[0] != []
         && exists m :: 0 <= m <= k - |pages[0]| && CoversBackward(timeline, m, pages[1..])
                        && forall i :: m <= i < k - |pages[0]| ==> timeline[i].ts == timeline[k - |pages[0]|].ts
  }

  lemma CoversForwardMore(timeline: seq<Entry>, k: nat, page: seq<Entry>, m: nat, rest: seq<seq<Entry>>)
    requires page != [] && k + |page| <= m <= |timeline| && page == timeline[k..k + |page|]
    requires CoversForward(timeline, m, rest)
    requires forall i :: k + |page| <= i < m ==> timeline[i].ts == timeline[k + |page| - 1].ts
    ensures CoversForward(timeline, k, [page] + rest)
  {
    assert ([page] + rest)[1..] == rest;
  }

  lemma CoversBackwardMore(timeline: seq<Entry>, k: nat, page: seq<Entry>, m: nat, rest: seq<seq<Entry>>)
    requires page != [] && m + |page| <= k <= |timeline| && page == timeline[k - |page|..k]
    requires CoversBackward(timeline, m, rest)
    requires forall i :: m <= i < k - |page| ==> timeline[i].ts == timeline[k - |page|].ts
    ensures CoversBackward(timeline, k, [page] + rest)
  {
    assert ([page] + rest)[1..] == rest;
  }

  /** Following next tokens from any position terminates, repeats nothing, and
      omits only lines tied with a page's last time. */
  lemma {:induction false} ForwardCovers(timeline: seq<Entry>, p: nat, k: nat)
    requires InTimeOrder(timeline) && k <= |timeline| && 0 < p
    ensures CoversForward(timeline, k, ForwardPages(timeline, p, k))
    decreases |timeline| - k
  {
    hide Below, ForwardPages, Take;
    if |timeline| - k > p {
      var page, u := timeline[k..k + p], timeline[k + p - 1].ts;
      var m := Below(timeline, u + 1);
      BelowSplits(timeline, u + 1);
      ForwardCovers(timeline, p, m);
      ForwardUnfolds(timeline, p, k);
      CoversForwardMore(timeline, k, page, m, ForwardPages(timeline, p, m));
    } else {
      OnePage(timeline, p, k);
    }
  }

  lemma OnePage(timeline: seq<Entry>, p: nat, k: nat)
    requires 0 < p && |timeline| - p <= k <= |timeline|
    ensures ForwardPages(timeline, p, k) == [timeline[k..|timeline|]]
  {
    assert timeline[k..|timeline|] == timeline[k..];
  }

  lemma TakenPage(timeline: seq<Entry>, p: nat, k: nat)
    requires k + p <= |timeline|
    ensures Take(p, timeline[k..]) == timeline[k..k + p]
  {
  }

  lemma ForwardUnfolds(timeline: seq<Entry>, p: nat, k: nat)
    requires 0 < p && k + p < |timeline|
    requires k + p - 1 < Below(timeline, timeline[k + p - 1].ts + 1)
    ensures ForwardPages(timeline, p, k)
         == [timeline[k..k + p]] + ForwardPages(timeline, p, Below(timeline, timeline[k + p - 1].ts + 1))
  {
    hide Below, Take;
    var page := Take(p, timeline[k..]);
    TakenPage(timeline, p, k);
    assert page[p - 1] == timeline[k + p - 1];
  }

  ghost predicate DistinctTimes(s: seq<Entry>) {
    forall i, j :: 0 <= i < j < |s| ==> s[i].ts != s[j].ts
  }

  function JoinedBack(pages: seq<seq<Entry>>): seq<Entry> {
    if pages == [] then [] else JoinedBack(pages[1..]) + pages[0]
  }

  /** No gap of entries tied with a neighbour when no two times are equal. */
  lemma NoTiedGap(timeline: seq<Entry>, lo: nat, hi: nat, next: nat)
    requires lo <= hi <= |timeline| && next < |timeline| && (next < lo || hi <= next)
    requires forall i :: lo <= i < hi ==> timeline[i].ts == timeline[next].ts
    ensures DistinctTimes(timeline) ==> lo == hi
  {
    if lo < hi {
      assert timeline[lo].ts == timeline[next].ts;
    }
  }

  lemma SliceSplit<T>(s: seq<T>, i: nat, j: nat)
    requires i <= j <= |s|
    ensures s[i..j] + s[j..] == s[i..]
    ensures s[..i] + s[i..j] == s[..j]
  {
  }

  /** With distinct times the pages concatenate to exactly the timeline. */
  lemma {:induction false} ForwardExact(timeline: seq<Entry>, k: nat, pages: seq<seq<Entry>>)
    requires DistinctTimes(timeline) && k <= |timeline| && CoversForward(timeline, k, pages)
    ensures Joined(pages) == timeline[k..]
    decreases |pages|
  {
    hide DistinctTimes, Joined;
    var e := k + |pages[0]|;
    if |pages| == 1 {
      JoinedOne(pages);
      assert timeline[k..e] == timeline[k..];
    } else {
      var m :| e <= m <= |timeline| && CoversForward(timeline, m, pages[1..])
               && forall i :: e <= i < m ==> timeline[i].ts == timeline[e - 1].ts;
      hide CoversForward;
      NoTiedGap(timeline, e, m, e - 1);
      ForwardExact(timeline, m, pages[1..]);
      SliceSplit(timeline, k, e);
      JoinedFirst(pages);
    }
  }

  lemma {:induction false} BackwardExact(timeline: seq<Entry>, k: nat, pages: seq<seq<Entry>>)
    requires DistinctTimes(timeline) && k <= |timeline| && CoversBackward(timeline, k, pages)
    ensures JoinedBack(pages) == timeline[..k]
    decreases |pages|
  {
    hide DistinctTimes;
    var e := k - |pages[0]|;
    if |pages| == 1 {
      assert JoinedBack(pages[1..]) == [];
    } else {
      var m :| 0 <= m <= e && CoversBackward(timeline, m, pages[1..])
               && forall i :: m <= i < e ==> timeline[i].ts == timeline[e].ts;
      hide CoversBackward;
      NoTiedGap(timeline, m, e, e);
      BackwardExact(timeline, m, pages[1..]);
      SliceSplit(timeline, e, k);
    }
  }

  /** The pages a client really gets: the entries of each answer, then those of
      the answer to its next token, for at most `fuel` more requests. */
  function Collect(all: seq<Entry>, req: Request, fuel: nat): seq<seq<Entry>>
    decreases fuel
  {
    match Answer(all, req)
    case BadToken => []
    case Reply(entries, next, _) =>
      [entries] + if next == [] || fuel == 0 then [] else Collect(all, Follow(req, next), fuel - 1)
  }

  /** The same by prev tokens. */
  function CollectBack(all: seq<Entry>, req: Request, fuel: nat): seq<seq<Entry>>
    decreases fuel
  {
    match Answer(all, req)
    case BadToken => []
    case Reply(entries, _, prev) =>
      [entries] + if prev == [] || fuel == 0 then [] else CollectBack(all, Follow(req, prev), fuel - 1)
  }

  /** The shape of a page read forward from position `k`. */
  lemma ForwardPage(timeline: seq<Entry>, k: nat, p: nat, t: int64)
    requires InTimeOrder(timeline) && k <= |timeline| && 0 < p
    requires |timeline| - k > p ==> 0 < timeline[k + p - 1].ts < TWO_63
    ensures var r := PageOf(timeline[k..], p, t, 0, false);
            && r.Reply? && r.entries == Take(p, timeline[k..])
            && (|timeline| - k <= p ==> r.next == [] && ForwardPages(timeline, p, k) == [r.entries])
            && (|timeline| - k > p ==>
                  var u := timeline[k + p - 1].ts;
                  && r.next == TokenFor(u, false) != [] && 0 < u < TWO_63
                  && k + p <= Below(timeline, u + 1)
                  && ForwardPages(timeline, p, k)
                     == [r.entries] + ForwardPages(timeline, p, Below(timeline, u + 1)))
  {
    hide Below, EncodeToken, ForwardPages;
    if |timeline| - k > p {
      var u := timeline[k + p - 1].ts;
      EncodedNotEmpty(NanosToken(u, false));
      BelowSplits(timeline, u + 1);
      ForwardUnfolds(timeline, p, k);
      assert timeline[k..][..p] == timeline[k..k + p];
    } else {
      OnePage(timeline, p, k);
      assert timeline[k..|timeline|] == timeline[k..];
    }
  }

  /** The shape of a page read backward from position `k`. */
  lemma BackwardPage(timeline: seq<Entry>, k: nat, p: nat, t: int64)
    requires k <= |timeline| && 0 < p
    ensures var r := PageOf(timeline[..k], p, 0, t, true);
            && r.Reply? && r.entries == TakeLast(p, timeline[..k])
            && (k <= p ==> r.entries == timeline[..k] && r.prev == [])
            && (k > p ==> r.entries == timeline[k - p..k] && r.prev == TokenFor(timeline[k - p].ts, true) != [])
  {
    hide EncodeToken;
    if k > p {
      EncodedNotEmpty(NanosToken(ToInt64(timeline[k - p].ts), true));
      assert timeline[..k][k - p..] == timeline[k - p..k];
    }
  }

  /** From a page whose last time is positive, following next tokens over the
      interface is the walk of the timeline, and ends within one request a line. */
  lemma {:induction false} CollectForward(all: seq<Entry>, req: Request, k: nat, t: int64, fuel: nat)
    requires var timeline, p := Timeline(all, req), PageSize(req.pageSize);
             && k <= |timeline| <= fuel + k
             && (forall i :: 0 <= i < |timeline| ==> timeline[i].ts < TWO_63)
             && (|timeline| - k > p ==> 0 < timeline[k + p - 1].ts)
             && Answer(all, req) == PageOf(timeline[k..], p, t, 0, false)
    ensures Collect(all, req, fuel) == ForwardPages(Timeline(all, req), PageSize(req.pageSize), k)
    decreases fuel
  {
    hide Timeline, Below, Answer, PageOf, TokenFor, Take, ForwardPages;
    var timeline, p := Timeline(all, req), PageSize(req.pageSize);
    TimelineOrdered(all, req);
    ForwardPage(timeline, k, p, t);
    if |timeline| - k > p {
      var u := timeline[k + p - 1].ts;
      var next := Follow(req, TokenFor(u, false));
      TokenAnswer(all, req, u);
      TimelineFollows(all, req, TokenFor(u, false));
      CollectForward(all, next, Below(timeline, u + 1), u, fuel - 1);
      assert Collect(all, req, fuel) == [Take(p, timeline[k..])] + Collect(all, next, fuel - 1);
    }
  }

  /** Timestamp paging covers the merge if the last time of the first page is
      positive: the pages got by following next tokens repeat nothing and omit
      only lines tied with a page's last time, and with distinct times they are
      exactly the timeline. */
  lemma NextTokensCover(all: seq<Entry>, req: Request, fuel: nat)
    requires req.token == [] && !req.last && |Timeline(all, req)| <= fuel
    requires forall i :: 0 <= i < |Timeline(all, req)| ==> Timeline(all, req)[i].ts < TWO_63
    requires var timeline, p := Timeline(all, req), PageSize(req.pageSize);
             |timeline| <= p || 0 < timeline[p - 1].ts
    ensures CoversForward(Timeline(all, req), 0, Collect(all, req, fuel))
    ensures DistinctTimes(Timeline(all, req)) ==> Joined(Collect(all, req, fuel)) == Timeline(all, req)
  {
    hide Timeline, PageOf, CoversForward, Collect, DistinctTimes, Answer;
    var timeline := Timeline(all, req);
    TimelineOrdered(all, req);
    FirstAnswer(all, req);
    assert timeline[0..] == timeline;
    CollectForward(all, req, 0, 0, fuel);
    ForwardCovers(timeline, PageSize(req.pageSize), 0);
    if DistinctTimes(timeline) {
      ForwardExact(timeline, 0, Collect(all, req, fuel));
    }
  }

  function Sizes(pages: seq<seq<Entry>>): nat {
    if pages == [] then 0 else |pages[0]| + Sizes(pages[1..])
  }

  /** Pages that cover are no longer together than what they cover. */
  lemma {:induction false} CoverFits(timeline: seq<Entry>, k: nat, pages: seq<seq<Entry>>)
    requires CoversForward(timeline, k, pages)
    ensures k + Sizes(pages) <= |timeline|
    decreases |pages|
  {
    if |pages| == 1 {
      assert Sizes(pages[1..]) == 0;
    } else {
      var m :| k + |pages[0]| <= m <= |timeline| && CoversForward(timeline, m, pages[1..])
               && forall i :: k + |pages[0]| <= i < m ==> timeline[i].ts == timeline[k + |pages[0]| - 1].ts;
      CoverFits(timeline, m, pages[1..]);
    }
  }

  /** Otherwise the client gets the first page again and again. */
  lemma {:induction false} FirstPageAgain(all: seq<Entry>, req: Request, fuel: nat)
    requires var timeline, p := Timeline(all, req), PageSize(req.pageSize);
             && |timeline| > p && ToInt64(timeline[p - 1].ts) <= 0
             && Answer(all, req) == PageOf(timeline, p, 0, 0, false)
    ensures Sizes(Collect(all, req, fuel)) > fuel
    decreases fuel
  {
    hide Timeline, Answer, TokenFor;
    var timeline, p := Timeline(all, req), PageSize(req.pageSize);
    var token := TokenFor(timeline[p - 1].ts, false);
    TokenAnswer(all, req, timeline[p - 1].ts);
    TimelineFollows(all, req, token);
    TokenNotEmpty(timeline[p - 1].ts, false);
    if fuel > 0 {
      FirstPageAgain(all, Follow(req, token), fuel - 1);
      assert Collect(all, req, fuel) == [Take(p, timeline)] + Collect(all, Follow(req, token), fuel - 1);
    } else {
      assert Collect(all, req, fuel) == [Take(p, timeline)];
    }
  }

  lemma TokenNotEmpty(ts: Time, backward: bool)
    ensures TokenFor(ts, backward) != []
  {
    EncodedNotEmpty(NanosToken(ToInt64(ts), backward));
  }

  /** So next tokens cover the timeline if and only if it is one page, or the
      first page ends in a positive time. */
  lemma NextTokensCoverExactly(all: seq<Entry>, req: Request, fuel: nat)
    requires req.token == [] && !req.last && |Timeline(all, req)| <= fuel && Representable(Timeline(all, req))
    ensures var timeline, p := Timeline(all, req), PageSize(req.pageSize);
            CoversForward(timeline, 0, Collect(all, req, fuel)) <==> |timeline| <= p || 0 < timeline[p - 1].ts
  {
    hide Timeline, PageOf, CoversForward, Collect, Answer, Representable;
    var timeline, p := Timeline(all, req), PageSize(req.pageSize);
    forall i | 0 <= i < |timeline|
      ensures timeline[i].ts < TWO_63
    {
      CarriedTime(timeline, i);
    }
    if |timeline| <= p || 0 < timeline[p - 1].ts {
      NextTokensCover(all, req, fuel);
    } else {
      CarriedTime(timeline, p - 1);
      FirstAnswer(all, req);
      FirstPageAgain(all, req, fuel);
      if CoversForward(timeline, 0, Collect(all, req, fuel)) {
        CoverFits(timeline, 0, Collect(all, req, fuel));
      }
    }
  }

  // ----- Following prev tokens -----

  /** Whether the walk back from position `k` goes well: every boundary time met
      is positive, or the first page, which a boundary that is not gets as its
      answer, happens to be all that is left but for ties. */
  predicate BackGoesWell(timeline: seq<Entry>, p: nat, k: nat)
    requires k <= |timeline| && 0 < p
    decreases k
  {
    k <= p
    || var u := timeline[k - p].ts;
       if u > 0 then Below(timeline, u) < k && BackGoesWell(timeline, p, Below(timeline, u))
       else p <= k - p && timeline[p].ts == u
  }

  /** One page back, when its boundary time is positive. */
  lemma BackCoversStep(timeline: seq<Entry>, p: nat, k: nat, rest: seq<seq<Entry>>)
    requires InTimeOrder(timeline) && 0 < p < k <= |timeline|
    requires var m := Below(timeline, timeline[k - p].ts); rest != [] && rest[0] == TakeLast(p, timeline[..m])
    ensures CoversBackward(timeline, k, [timeline[k - p..k]] + rest)
       <==> CoversBackward(timeline, Below(timeline, timeline[k - p].ts), rest)
  {
    hide Below, CoversBackward;
    var page, u := timeline[k - p..k], timeline[k - p].ts;
    var m := Below(timeline, u);
    BelowSplits(timeline, u);
    if CoversBackward(timeline, m, rest) {
      CoversBackwardMore(timeline, k, page, m, rest);
    }
    if CoversBackward(timeline, k, [page] + rest) {
      var m' := CoversBackwardLess(timeline, k, page, rest);
      SameCut(timeline, p, k, m, m', rest);
    }
  }

  lemma CoversBackwardLess(timeline: seq<Entry>, k: nat, page: seq<Entry>, rest: seq<seq<Entry>>) returns (m: nat)
    requires rest != [] && CoversBackward(timeline, k, [page] + rest)
    ensures page != [] && |page| <= k <= |timeline| && m <= k - |page| && CoversBackward(timeline, m, rest)
    ensures forall i :: m <= i < k - |page| ==> timeline[i].ts == timeline[k - |page|].ts
  {
    assert ([page] + rest)[1..] == rest;
    m :| m <= k - |page| && CoversBackward(timeline, m, rest)
         && forall i :: m <= i < k - |page| ==> timeline[i].ts == timeline[k - |page|].ts;
  }

  /** The pages that follow can only start where the boundary's ties do. */
  lemma SameCut(timeline: seq<Entry>, p: nat, k: nat, m: nat, m': nat, rest: seq<seq<Entry>>)
    requires InTimeOrder(timeline) && 0 < p < k <= |timeline| && m <= k - p && m' <= k - p
    requires forall i :: 0 <= i < m ==> timeline[i].ts < timeline[k - p].ts
    requires forall i :: m <= i < |timeline| ==> timeline[k - p].ts <= timeline[i].ts
    requires forall i :: m' <= i < k - p ==> timeline[i].ts == timeline[k - p].ts
    requires rest != [] && rest[0] == TakeLast(p, timeline[..m]) && CoversBackward(timeline, m', rest)
    ensures m' == m
  {
    var first := rest[0];
    assert first == timeline[m' - |first|..m'];
    if m > 0 {
      assert first != [] && first[|first| - 1] == timeline[m - 1];
      assert first[|first| - 1] == timeline[m' - 1];
    }
  }

  lemma SameSize(req: Request, token: Text)
    ensures Follow(req, token).pageSize == req.pageSize
  {
  }

  lemma CollectBackStep(all: seq<Entry>, req: Request, fuel: nat)
    requires Answer(all, req).Reply?
    ensures var r := Answer(all, req);
            CollectBack(all, req, fuel)
            == [r.entries] + if r.prev == [] || fuel == 0 then [] else CollectBack(all, Follow(req, r.prev), fuel - 1)
  {
    hide Answer;
  }

  /** What the client collects going back from position `k`. */
  lemma {:induction false} CollectBackward(all: seq<Entry>, req: Request, k: nat, t: int64, fuel: nat)
    requires var timeline := Timeline(all, req);
             && Representable(timeline) && k <= |timeline| && k <= fuel
             && Answer(all, req) == PageOf(timeline[..k], PageSize(req.pageSize), 0, t, true)
    ensures var timeline, p, pages := Timeline(all, req), PageSize(req.pageSize), CollectBack(all, req, fuel);
            && pages != [] && pages[0] == TakeLast(p, timeline[..k])
            && (CoversBackward(timeline, k, pages) <==> BackGoesWell(timeline, p, k))
    decreases fuel
  {
    hide Timeline, Below, Answer, PageOf, TokenFor, BackGoesWell, CoversBackward, Representable, CollectBack,
         TakeLast, Follow;
    var timeline, p := Timeline(all, req), PageSize(req.pageSize);
    TimelineOrdered(all, req);
    BackwardPage(timeline, k, p, t);
    CollectBackStep(all, req, fuel);
    if k <= p {
      OnePageBack(timeline, p, k);
      assert [timeline[..k]] + [] == [timeline[..k]];
    } else {
      var page, u := timeline[k - p..k], timeline[k - p].ts;
      var next := Follow(req, TokenFor(u, true));
      TimelineFollows(all, req, TokenFor(u, true));
      TokenAnswer(all, req, u);
      CarriedTime(timeline, k - p);
      SameSize(req, TokenFor(u, true));
      BackUnfolds(timeline, p, k);
      if u > 0 {
        BelowSplits(timeline, u);
        CollectBackward(all, next, Below(timeline, u), u, fuel - 1);
        BackCoversStep(timeline, p, k, CollectBack(all, next, fuel - 1));
      } else {
        FirstPageEnds(timeline, p);
        CollectBackStep(all, next, fuel - 1);
        assert [timeline[..p]] + [] == [timeline[..p]];
        FirstPageFits(timeline, p, k);
      }
    }
  }

  lemma OnePageBack(timeline: seq<Entry>, p: nat, k: nat)
    requires 0 < p && k <= p && k <= |timeline|
    ensures CoversBackward(timeline, k, [timeline[..k]]) && BackGoesWell(timeline, p, k)
  {
    assert timeline[0..k] == timeline[..k];
  }

  lemma BackUnfolds(timeline: seq<Entry>, p: nat, k: nat)
    requires InTimeOrder(timeline) && 0 < p < k <= |timeline|
    ensures var u := timeline[k - p].ts;
            BackGoesWell(timeline, p, k)
            == if u > 0 then BackGoesWell(timeline, p, Below(timeline, u)) else p <= k - p && timeline[p].ts == u
  {
    BelowSplits(timeline, timeline[k - p].ts);
  }

  /** The first page has no prev token. */
  lemma FirstPageEnds(timeline: seq<Entry>, p: nat)
    requires 0 < p < |timeline|
    ensures var r := PageOf(timeline, p, 0, 0, false); r.Reply? && r.entries == timeline[..p] && r.prev == []
  {
    hide TokenFor;
  }

  /** The first page as the answer to a boundary that is not positive: it is all
      that is left, but for ties, or it is not. */
  lemma FirstPageFits(timeline: seq<Entry>, p: nat, k: nat)
    requires InTimeOrder(timeline) && 0 < p < k <= |timeline|
    ensures CoversBackward(timeline, k, [timeline[k - p..k]] + [timeline[..p]])
       <==> p <= k - p && timeline[p].ts == timeline[k - p].ts
  {
    hide CoversBackward;
    var page, first := timeline[k - p..k], timeline[..p];
    if p <= k - p && timeline[p].ts == timeline[k - p].ts {
      OnePageBack(timeline, p, p);
      forall i | p <= i < k - p
        ensures timeline[i].ts == timeline[k - p].ts
      {
        assert timeline[p].ts <= timeline[i].ts <= timeline[k - p].ts;
      }
      CoversBackwardMore(timeline, k, page, p, [first]);
    }
    if CoversBackward(timeline, k, [page] + [first]) {
      var m := CoversBackwardLess(timeline, k, page, [first]);
      LastPageEnds(timeline, m, first);
    }
  }

  lemma LastPageEnds(timeline: seq<Entry>, m: nat, page: seq<Entry>)
    requires CoversBackward(timeline, m, [page])
    ensures m == |page|
  {
  }

  /** Prev tokens from the last page cover the timeline if and only if the walk
      back goes well; with distinct times they then give exactly the timeline. */
  lemma PrevTokensCoverExactly(all: seq<Entry>, req: Request, fuel: nat)
    requires req.token == [] && req.last && |Timeline(all, req)| <= fuel && Representable(Timeline(all, req))
    ensures var timeline, pages := Timeline(all, req), CollectBack(all, req, fuel);
            var covers := CoversBackward(timeline, |timeline|, pages);
            && (covers <==> BackGoesWell(timeline, PageSize(req.pageSize), |timeline|))
            && (DistinctTimes(timeline) && covers ==> JoinedBack(pages) == timeline)
  {
    hide Timeline, PageOf, CoversBackward, CollectBack, DistinctTimes, Answer, BackGoesWell, Representable;
    var timeline := Timeline(all, req);
    TimelineOrdered(all, req);
    FirstAnswer(all, req);
    assert timeline[..|timeline|] == timeline;
    CollectBackward(all, req, |timeline|, 0, fuel);
    if DistinctTimes(timeline) && CoversBackward(timeline, |timeline|, CollectBack(all, req, fuel)) {
      BackwardExact(timeline, |timeline|, CollectBack(all, req, fuel));
    }
  }

  /** With positive times, but for a first line perhaps, the walk back always goes
      well. */
  lemma {:induction false} PositiveGoesWell(timeline: seq<Entry>, p: nat, k: nat)
    requires InTimeOrder(timeline) && k <= |timeline| && 0 < p
    requires forall i :: 1 <= i < |timeline| ==> 0 < timeline[i].ts
    ensures BackGoesWell(timeline, p, k)
    decreases k
  {
    if k > p {
      BelowSplits(timeline, timeline[k - p].ts);
      PositiveGoesWell(timeline, p, Below(timeline, timeline[k - p].ts));
    }
  }

  // ----- Two stores on which paging fails -----

  function Stamped(ts: Time): Entry {
    Entry(ts, [])
  }

  function Unbounded(pageSize: int, last: bool): Request {
    Request(0, 0, pageSize, [], last)
  }

  /** A line without a time of its own, and one with: pages of one never get
      past the first. */
  lemma NextTokensStuck(fuel: nat)
    requires fuel >= 2
    ensures var all := [Stamped(ZERO_TIME), Stamped(SECOND)];
            !CoversForward(Timeline(all, Unbounded(1, false)), 0, Collect(all, Unbounded(1, false), fuel))
  {
    hide CoversForward, Collect;
    var all, req := [Stamped(ZERO_TIME), Stamped(SECOND)], Unbounded(1, false);
    SortedAlready(all, req);
    NextTokensCoverExactly(all, req, fuel);
  }

  /** Two such lines, and one with a time: pages of two going back show the
      second line twice. */
  lemma PrevTokensRepeat(fuel: nat)
    requires fuel >= 3
    ensures var all := [Stamped(ZERO_TIME), Stamped(ZERO_TIME), Stamped(SECOND)];
            !CoversBackward(Timeline(all, Unbounded(2, true)), 3, CollectBack(all, Unbounded(2, true), fuel))
  {
    hide CoversBackward, CollectBack;
    var all, req := [Stamped(ZERO_TIME), Stamped(ZERO_TIME), Stamped(SECOND)], Unbounded(2, true);
    SortedAlready(all, req);
    PrevTokensCoverExactly(all, req, fuel);
  }

  lemma SortedAlready(all: seq<Entry>, req: Request)
    requires InTimeOrder(all) && req.startTime == 0 && req.endTime == 0
    ensures Timeline(all, req) == all
  {
    FilterAll(e => InRange(None, None, e), all);
    SortedStays(all);
  }

  lemma {:induction false} SortedStays(all: seq<Entry>)
    requires InTimeOrder(all)
    ensures SortBy(TimeLess, all) == all
  {
    if all != [] {
      var n := |all| - 1;
      SortedStays(all[..n]);
      SlotAtEnd(all[n], all[..n]);
      assert all == all[..n] + [all[n]];
    }
  }

  lemma {:induction false} SlotAtEnd(x: Entry, s: seq<Entry>)
    requires forall i :: 0 <= i < |s| ==> s[i].ts <= x.ts
    ensures Slot(TimeLess, x, s) == |s|
  {
    if s != [] {
      SlotAtEnd(x, s[1..]);
    }
  }

  /** Going back and forth: from the page reached by a next token, the prev
      token's page is empty only at the start; and otherwise its next token is
      answered by the same page with the same tokens, ties or not, if and only
      if it ends in a positive time. */
  lemma PrevThenNext(all: seq<Entry>, req: Request, t: Time)
    requires Representable(Timeline(all, req)) && 0 < t < TWO_63
    requires var r := Answer(all, Follow(req, TokenFor(t, false)));
             r.Reply? && r.entries != [] && r.prev != []
    ensures var r := Answer(all, Follow(req, TokenFor(t, false)));
            var back := Answer(all, Follow(req, r.prev));
            && back.Reply?
            && (back.entries == [] <==> Below(Timeline(all, req), r.entries[0].ts) == 0)
            && (back.entries != [] ==>
                  (Answer(all, Follow(req, back.next)) == r <==> 0 < back.entries[|back.entries| - 1].ts))
  {
    hide Timeline, Answer, TokenFor, Below, PageOf, Representable;
    var timeline, p := Timeline(all, req), PageSize(req.pageSize);
    TimelineOrdered(all, req);
    TokenAnswer(all, req, t);
    var k := Below(timeline, t + 1);
    BelowSplits(timeline, t + 1);
    ForwardPageEnds(timeline, k, p, t);
    var first := timeline[k].ts;
    CarriedTime(timeline, k);
    BelowIs(timeline, first, k);
    TokenAnswer(all, req, first);
    BackwardPageEnds(timeline, k, p, first);
    if k > 0 {
      var u := timeline[k - 1].ts;
      BelowIs(timeline, u + 1, k);
      CarriedTime(timeline, k - 1);
      TokenAnswer(all, req, u);
      if u > 0 {
        SamePage(timeline[k..], p, t, u);
      } else {
        NoPrevOnFirst(timeline, p);
      }
    }
  }

  lemma NoPrevOnFirst(timeline: seq<Entry>, p: nat)
    requires 0 < p
    ensures PageOf(timeline, p, 0, 0, false).Reply? && PageOf(timeline, p, 0, 0, false).prev == []
  {
    hide TokenFor;
  }

  lemma ForwardPageEnds(timeline: seq<Entry>, k: nat, p: nat, t: int64)
    requires k <= |timeline| && 0 < p && 0 < t
    ensures var r := PageOf(timeline[k..], p, t, 0, false);
            && r.Reply? && (r.entries != [] ==> k < |timeline|)
            && (k < |timeline| ==>
                  r.entries != [] && r.entries[0] == timeline[k] && r.prev == TokenFor(timeline[k].ts, true))
  {
    hide TokenFor;
  }

  lemma BackwardPageEnds(timeline: seq<Entry>, k: nat, p: nat, t: int64)
    requires k <= |timeline| && 0 < p && 0 < t
    ensures var r := PageOf(timeline[..k], p, 0, t, true);
            && r.Reply? && (r.entries == [] <==> k == 0)
            && (k > 0 ==>
                  && r.next == TokenFor(timeline[k - 1].ts, false)
                  && r.entries[|r.entries| - 1] == timeline[k - 1])
  {
    hide TokenFor;
  }

  /** A forward page does not depend on where exactly its cursor stands. */
  lemma SamePage(window: seq<Entry>, p: nat, t: int64, u: int64)
    requires 0 < t && 0 < u
    ensures PageOf(window, p, t, 0, false) == PageOf(window, p, u, 0, false)
  {
  }
}
