/** Pages of one value's log lines from the index (GetLogs). */
module IndexPages {
  import opened Bytes
  import opened Ordering
  import opened Seqs
  import opened Writer
  import opened ShardCodec
  import opened IndexShards

  /** sortableEntry: an available reference and its position in the scan. */
  datatype Sortable = Sortable(ref: Reference, position: nat)

  /** sortableEntryLess: valid times first, by time, ties by scan position. */
  predicate EntryLess(a: Sortable, b: Sortable) {
    if a.ref.validTime != b.ref.validTime then a.ref.validTime
    else if a.ref.validTime && a.ref.timestamp != b.ref.timestamp then a.ref.timestamp < b.ref.timestamp
    else a.position < b.position
  }

  lemma EntryOrder()
    ensures WeakOrder(EntryLess)
  {
    forall a, b, c
      ensures Coherent(EntryLess, a, b, c)
    {
    }
  }

  function Enumerate(refs: seq<Reference>): (r: seq<Sortable>)
    ensures |r| == |refs|
  {
    seq(|refs|, i requires 0 <= i < |refs| => Sortable(refs[i], i))
  }

  function References(entries: seq<Sortable>): (r: seq<Reference>)
    ensures |r| == |entries|
  {
    seq(|entries|, i requires 0 <= i < |entries| => entries[i].ref)
  }

  predicate Wanted(logs: Files, value: Text, ref: Reference) {
    ref.value == value && Available(logs, ref)
  }

  /** The available references for `value`, in the order they were indexed. */
  function Matching(lib: Library, logs: Files, kf: KeyFiles, value: Text): seq<Reference> {
    Filter(r => Wanted(logs, value, r), RefsOf(kf, lib.shardOf(value)))
  }

  /** The simple form of every page: all of them, sorted. */
  function Ordered(lib: Library, logs: Files, kf: KeyFiles, value: Text): (r: seq<Sortable>)
    ensures |r| == |Matching(lib, logs, kf, value)|
  {
    SortBy(EntryLess, Enumerate(Matching(lib, logs, kf, value)))
  }

  function Drop<T>(k: nat, s: seq<T>): seq<T> {
    if k < |s| then s[k..] else []
  }

  lemma EnumerateTieless(refs: seq<Reference>)
    ensures Tieless(EntryLess, Enumerate(refs))
  {
  }

  lemma EnumerateStep(refs: seq<Reference>, ref: Reference)
    ensures Enumerate(refs + [ref]) == Enumerate(refs) + [Sortable(ref, |refs|)]
  {
  }

  /** readReferencePageLocked: a heap of at most one page (and what precedes
      it) finds the same entries as sorting everything and slicing. */
  method ReadReferencePage(lib: Library, logs: Files, kf: KeyFiles, value: Text, start: nat, pageSize: nat, last: bool)
    returns (entries: seq<Reference>, total: nat, ok: bool)
    ensures ok == ScanOf(kf, lib.shardOf(value)).ok
    ensures ok ==> total == |Matching(lib, logs, kf, value)|
    ensures ok ==> var all := Ordered(lib, logs, kf, value);
              entries == References(if last then TakeLast(pageSize, all) else Drop(start, Take(start + pageSize, all)))
  {
    hide ScanFile, Kept, Wanted, EntryLess;
    var limit := if last then pageSize else start + pageSize;
    var shard := lib.shardOf(value);
    var refs := [];
    ok := true;
    if shard in kf {
      refs, ok := ScanShard(kf[shard]);
    }
    if !ok {
      return [], 0, false;
    }
    var h;
    h, total := ScanReferences(logs, value, refs, last, limit);
    ghost var all := Enumerate(Filter(r => Wanted(logs, value, r), refs));
    EntryOrder();
    EnumerateTieless(Filter(r => Wanted(logs, value, r), refs));
    HeldPage(EntryLess, last, limit, all, h.entries);
    var selected := SortBy(EntryLess, h.entries);
    if !last {
      selected := Drop(start, selected);
    }
    entries := References(selected);
  }

  /** The scan of one shard's references into the heap. */
  method ScanReferences(logs: Files, value: Text, refs: seq<Reference>, last: bool, limit: nat)
    returns (h: PageHeap<Sortable>, total: nat)
    ensures fresh(h) && h.less == EntryLess && h.keepNewest == last
    ensures var all := Filter(r => Wanted(logs, value, r), refs);
            total == |all| && multiset(h.entries) == multiset(Kept(EntryLess, last, limit, Enumerate(all)))
  {
    hide Kept, Wanted, EntryLess;
    var keep := r => Wanted(logs, value, r);
    h := new PageHeap(EntryLess, last);
    total := 0;
    EntryOrder();
    KeptNothing(EntryLess, last, limit, Enumerate([]));
    for i := 0 to |refs|
      invariant h.less == EntryLess && h.keepNewest == last
      invariant total == |Filter(keep, refs[..i])|
      invariant multiset(h.entries) == multiset(Kept(EntryLess, last, limit, Enumerate(Filter(keep, refs[..i]))))
    {
      ghost var seen := Filter(keep, refs[..i]);
      assert refs[..i + 1] == refs[..i] + [refs[i]];
      FilterStep(keep, refs[..i], refs[i]);
      if keep(refs[i]) {
        EnumerateStep(seen, refs[i]);
        EnumerateTieless(seen + [refs[i]]);
        h.Offer(Sortable(refs[i], total), limit, Enumerate(seen));
        total := total + 1;
      }
    }
    assert refs[..|refs|] == refs;
  }

  // ----- The answer of GetLogs -----

  /** readReferencedLine */
  function ReadLine(logs: Files, ref: Reference): Option<Text> {
    if ref.path in logs && 0 <= ref.offset && ref.offset + ref.length <= |logs[ref.path].bytes|
    then Some(logs[ref.path].bytes[ref.offset..ref.offset + ref.length])
    else None
  }

  /** The lines that can be read; the others are skipped. */
  function ReadLines(logs: Files, refs: seq<Reference>): seq<Text> {
    if refs == [] then []
    else
      match ReadLine(logs, refs[|refs| - 1])
      case None => ReadLines(logs, refs[..|refs| - 1])
      case Some(line) => ReadLines(logs, refs[..|refs| - 1]) + [line]
  }

  method ReadEntries(logs: Files, entries: seq<Reference>) returns (lines: seq<Text>)
    ensures lines == ReadLines(logs, entries)
  {
    hide ReadLine;
    lines := [];
    for i := 0 to |entries|
      invariant lines == ReadLines(logs, entries[..i])
    {
      assert entries[..i + 1][..i] == entries[..i];
      var line := ReadLine(logs, entries[i]);
      if line.Some? {
        lines := lines + [line.value];
      }
    }
    assert entries[..|entries|] == entries;
  }

  /** If every line is there, the lines are the bytes at the references, one each. */
  lemma {:induction false} ReadLinesExact(logs: Files, refs: seq<Reference>)
    requires forall i :: 0 <= i < |refs| ==>
               var r := refs[i];
               r.path in logs && 0 <= r.offset && r.offset + r.length <= |logs[r.path].bytes|
    ensures var lines := ReadLines(logs, refs);
            && |lines| == |refs|
            && forall i :: 0 <= i < |refs| ==>
                 var r := refs[i];
                 lines[i] == logs[r.path].bytes[r.offset..r.offset + r.length]
  {
    if refs != [] {
      ReadLinesExact(logs, refs[..|refs| - 1]);
    }
  }

  datatype Token = NoToken | NumberToken(n: int) | GarbageToken

  datatype Answer =
    | NotFound
    | InvalidToken
    | Unreadable
    | Page(lines: seq<Text>, next: Option<nat>, prev: Option<nat>)

  /** Positions [start, start + pageSize) of `all`. */
  function Slice<T>(all: seq<T>, start: nat, pageSize: nat): (page: seq<T>)
    requires start <= |all|
    ensures |page| <= pageSize
  {
    if start + pageSize < |all| then all[start..start + pageSize] else all[start..]
  }

  function NextStart(total: nat, start: nat, shown: nat): Option<nat> {
    if start + shown < total then Some(start + shown) else None
  }

  function PrevStart(start: nat, pageSize: nat): Option<nat> {
    if start == 0 then None else Some(if start < pageSize then 0 else start - pageSize)
  }

  /** What GetLogs must answer for a key: a slice of the sorted references. */
  function PageAnswer(lib: Library, logs: Files, kf: KeyFiles, value: Text, requested: int, token: Token,
                      last: bool): Answer {
    var p, all := PageSize(requested), Ordered(lib, logs, kf, value);
    if !last && (token.GarbageToken? || (token.NumberToken? && token.n < 0)) then InvalidToken
    else if !ScanOf(kf, lib.shardOf(value)).ok then Unreadable
    else
      var start := if last then (if p < |all| then |all| - p else 0) else if token.NumberToken? then token.n else 0;
      if start > |all| then InvalidToken
      else
        PageOf(logs, References(Slice(all, start, p)), |all|, start, p)
  }

  function PageOf(logs: Files, entries: seq<Reference>, total: nat, start: nat, pageSize: nat): Answer {
    Page(ReadLines(logs, entries), NextStart(total, start, |entries|), PrevStart(start, pageSize))
  }

  method BuildPage(logs: Files, entries: seq<Reference>, total: nat, start: nat, pageSize: nat) returns (answer: Answer)
    ensures answer == PageOf(logs, entries, total, start, pageSize)
  {
    var lines := ReadEntries(logs, entries);
    var next: Option<nat> := None;
    var end := start + |entries|;
    if end < total {
      next := Some(end);
    }
    var prev: Option<nat> := None;
    if start > 0 {
      var prevStart := start - pageSize;
      if prevStart < 0 {
        prevStart := 0;
      }
      prev := Some(prevStart);
    }
    answer := Page(lines, next, prev);
  }

  /** The part of GetLogs after the key has been found. */
  method GetPage(lib: Library, logs: Files, kf: KeyFiles, value: Text, requested: int, token: Token, last: bool)
    returns (answer: Answer)
    ensures answer == PageAnswer(lib, logs, kf, value, requested, token, last)
  {
    hide Ordered, Matching, PageOf, Take, TakeLast, Drop, Slice, ScanOf;
    var pageSize := requested;
    if pageSize <= 0 {
      pageSize := 200;
    }
    if pageSize > 1000 {
      pageSize := 1000;
    }
    var start := 0;
    if !last && token != NoToken {
      if token.GarbageToken? || token.n < 0 {
        return InvalidToken;
      }
      start := token.n;
    }
    var entries, total, ok := ReadReferencePage(lib, logs, kf, value, start, pageSize, last);
    if !ok {
      return Unreadable;
    }
    if start > total {
      return InvalidToken;
    }
    if last {
      start := total - |entries|;
    }
    PageIsSlice(Ordered(lib, logs, kf, value), start, pageSize, last);
    answer := BuildPage(logs, entries, total, start, pageSize);
  }

  lemma PageIsSlice<T>(all: seq<T>, start: nat, pageSize: nat, last: bool)
    requires start <= |all|
    requires last ==> start == |all| - |TakeLast(pageSize, all)|
    ensures last ==> start == if pageSize < |all| then |all| - pageSize else 0
    ensures Slice(all, start, pageSize)
         == if last then TakeLast(pageSize, all) else Drop(start, Take(start + pageSize, all))
  {
  }

  // ----- Following tokens -----

  /** What a client collects by following next tokens from `start`. */
  function Walk<T>(all: seq<T>, start: nat, pageSize: nat): seq<T>
    requires start <= |all| && 0 < pageSize
    decreases |all| - start
  {
    var page := Slice(all, start, pageSize);
    match NextStart(|all|, start, |page|)
    case None => page
    case Some(next) => page + Walk(all, next, pageSize)
  }

  /** It is everything from there on, each once, ties included. */
  lemma {:induction false} WalkCovers<T>(all: seq<T>, start: nat, pageSize: nat)
    requires start <= |all| && 0 < pageSize
    ensures Walk(all, start, pageSize) == all[start..]
    decreases |all| - start
  {
    hide Slice;
    var page := Slice(all, start, pageSize);
    SliceAndRest(all, start, pageSize);
    if start + |page| < |all| {
      WalkCovers(all, start + |page|, pageSize);
    } else {
      assert page + [] == page;
    }
  }

  /** Following next tokens over the whole value shows every available
      reference exactly once, in order of validity, time and position. */
  lemma WalkIndex(lib: Library, logs: Files, kf: KeyFiles, value: Text, requested: int)
    ensures var shown := References(Walk(Ordered(lib, logs, kf, value), 0, PageSize(requested)));
            && multiset(shown) == multiset(Matching(lib, logs, kf, value))
            && forall i, j :: 0 <= i < j < |shown| ==>
                 && (shown[j].validTime ==> shown[i].validTime)
                 && (shown[i].validTime && shown[j].validTime ==> shown[i].timestamp <= shown[j].timestamp)
  {
    var all, refs := Ordered(lib, logs, kf, value), Matching(lib, logs, kf, value);
    WalkCovers(all, 0, PageSize(requested));
    assert all[0..] == all;
    EntryOrder();
    SortBySorted(EntryLess, Enumerate(refs));
    SortedReferences(Enumerate(refs));
    assert References(Enumerate(refs)) == refs;
    var shown := References(all);
    forall i, j | 0 <= i < j < |shown|
      ensures shown[j].validTime ==> shown[i].validTime
      ensures shown[i].validTime && shown[j].validTime ==> shown[i].timestamp <= shown[j].timestamp
    {
      assert !EntryLess(all[j], all[i]);
    }
  }

  /** The lines a client is really shown: those of each answer, then those of the
      answer to its next token, for at most `fuel` more requests. */
  function Shown(lib: Library, logs: Files, kf: KeyFiles, value: Text, requested: int, token: Token,
                 fuel: nat): seq<Text>
    decreases fuel
  {
    match PageAnswer(lib, logs, kf, value, requested, token, false)
    case Page(lines, next, _) =>
      lines + if next == None || fuel == 0 then []
              else Shown(lib, logs, kf, value, requested, NumberToken(next.value), fuel - 1)
    case _ => []
  }

  lemma {:induction false} ReadLinesConcat(logs: Files, a: seq<Reference>, b: seq<Reference>)
    ensures ReadLines(logs, a + b) == ReadLines(logs, a) + ReadLines(logs, b)
  {
    hide ReadLine;
    if b == [] {
      assert a + b == a;
    } else {
      var n := |b| - 1;
      assert (a + b)[..|a + b| - 1] == a + b[..n];
      ReadLinesConcat(logs, a, b[..n]);
    }
  }

  lemma SliceAndRest<T>(all: seq<T>, start: nat, p: nat)
    requires start <= |all| && 0 < p
    ensures var page := Slice(all, start, p);
            && all[start..] == page + all[start + |page|..]
            && (start + |page| < |all| ==> |page| == p)
  {
  }

  lemma ShownStep(lib: Library, logs: Files, kf: KeyFiles, value: Text, requested: int, token: Token, start: nat,
                  fuel: nat)
    requires ScanOf(kf, lib.shardOf(value)).ok
    requires (token == NoToken && start == 0) || token == NumberToken(start)
    requires start <= |Ordered(lib, logs, kf, value)|
    ensures var all := Ordered(lib, logs, kf, value);
            var page := Slice(all, start, PageSize(requested));
            var end := start + |page|;
            Shown(lib, logs, kf, value, requested, token, fuel)
            == ReadLines(logs, References(page))
               + if end >= |all| || fuel == 0 then []
                 else Shown(lib, logs, kf, value, requested, NumberToken(end), fuel - 1)
  {
    hide ReadLines, References, Ordered, ScanOf, Slice;
  }

  lemma {:induction false} TokensShow(lib: Library, logs: Files, kf: KeyFiles, value: Text, requested: int,
                                      token: Token, start: nat, fuel: nat)
    requires ScanOf(kf, lib.shardOf(value)).ok
    requires (token == NoToken && start == 0) || token == NumberToken(start)
    requires start <= |Ordered(lib, logs, kf, value)| <= start + fuel
    ensures Shown(lib, logs, kf, value, requested, token, fuel)
         == ReadLines(logs, References(Ordered(lib, logs, kf, value)[start..]))
    decreases fuel
  {
    hide ReadLines, References, Ordered, ScanOf, Slice, Shown, PageAnswer;
    var all, p := Ordered(lib, logs, kf, value), PageSize(requested);
    ShownStep(lib, logs, kf, value, requested, token, start, fuel);
    var page := Slice(all, start, p);
    var end := start + |page|;
    SliceAndRest(all, start, p);
    ReferencesConcat(page, all[end..]);
    ReadLinesConcat(logs, References(page), References(all[end..]));
    if end < |all| {
      TokensShow(lib, logs, kf, value, requested, NumberToken(end), end, fuel - 1);
    } else {
      NothingLeft(logs, all[end..]);
      assert ReadLines(logs, References(page)) + [] == ReadLines(logs, References(page));
    }
  }

  lemma NothingLeft(logs: Files, rest: seq<Sortable>)
    requires rest == []
    ensures ReadLines(logs, References(rest)) == []
  {
  }

  /** Following next tokens from the first request shows exactly the lines of all
      available references of the value, in order, whatever the page size. */
  lemma TokensShowAll(lib: Library, logs: Files, kf: KeyFiles, value: Text, requested: int, fuel: nat)
    requires ScanOf(kf, lib.shardOf(value)).ok && |Matching(lib, logs, kf, value)| <= fuel
    ensures Shown(lib, logs, kf, value, requested, NoToken, fuel)
         == ReadLines(logs, References(Ordered(lib, logs, kf, value)))
  {
    hide ReadLines, References, Shown, ScanOf, Matching;
    var all := Ordered(lib, logs, kf, value);
    assert all[0..] == all;
    TokensShow(lib, logs, kf, value, requested, NoToken, 0, fuel);
  }

  // ----- The same, spelled out -----

  /** No reference to a file that is there runs past 64-bit offsets. */
  predicate NoOverflow(logs: Files, refs: seq<Reference>) {
    forall r :: r in refs && r.path in logs ==> r.offset + r.length < TWO_63
  }

  /** The references a page can show: those of the value whose bytes are there. */
  lemma MatchingSpelledOut(lib: Library, logs: Files, kf: KeyFiles, value: Text)
    requires NoOverflow(logs, RefsOf(kf, lib.shardOf(value)))
    ensures Matching(lib, logs, kf, value)
         == Filter((r: Reference) => r.value == value && r.path in logs && 0 <= r.offset
                                     && r.offset + r.length <= |logs[r.path].bytes|,
                   RefsOf(kf, lib.shardOf(value)))
  {
    hide ScanFile, ToInt64;
    FilterSame(r => Wanted(logs, value, r),
               (r: Reference) => r.value == value && r.path in logs && 0 <= r.offset
                                 && r.offset + r.length <= |logs[r.path].bytes|,
               RefsOf(kf, lib.shardOf(value)));
  }

  /** The order of the pages: each reference once, valid times first and by time,
      and those without one, or with the same, as they were indexed. */
  lemma OrderedSpelledOut(lib: Library, logs: Files, kf: KeyFiles, value: Text) returns (at: seq<nat>)
    ensures var refs, all := Matching(lib, logs, kf, value), Ordered(lib, logs, kf, value);
            && |at| == |all| == |refs|
            && (forall i :: 0 <= i < |at| ==> at[i] < |refs| && all[i].ref == refs[at[i]])
            && (forall i, j :: 0 <= i < j < |at| ==>
                  var a, b := refs[at[i]], refs[at[j]];
                  || (a.validTime && !b.validTime)
                  || (a.validTime && b.validTime && a.timestamp < b.timestamp)
                  || (a.validTime && b.validTime && a.timestamp == b.timestamp && at[i] < at[j])
                  || (!a.validTime && !b.validTime && at[i] < at[j]))
  {
    hide Matching;
    var refs, all := Matching(lib, logs, kf, value), Ordered(lib, logs, kf, value);
    at := seq(|all|, i requires 0 <= i < |all| => all[i].position);
    EntryOrder();
    EnumerateTieless(refs);
    SortByMultiset(EntryLess, Enumerate(refs));
    SortBySorted(EntryLess, Enumerate(refs));
    TiesByMembership(EntryLess, Enumerate(refs), all);
    SameMembers(Enumerate(refs), all);
    forall i | 0 <= i < |at|
      ensures at[i] < |refs| && all[i].ref == refs[at[i]]
    {
      assert all[i] in Enumerate(refs);
    }
  }

  /** What the next tokens lead through, in the store's own terms: for each
      reference of the value whose bytes are there its line, which is those bytes. */
  lemma TokensShowLines(lib: Library, logs: Files, kf: KeyFiles, value: Text, requested: int, fuel: nat)
    returns (refs: seq<Reference>)
    requires ScanOf(kf, lib.shardOf(value)).ok && |RefsOf(kf, lib.shardOf(value))| <= fuel
    requires NoOverflow(logs, RefsOf(kf, lib.shardOf(value)))
    ensures refs == References(Ordered(lib, logs, kf, value))
    ensures forall r :: multiset(refs)[r]
              == if r.value == value && r.path in logs && 0 <= r.offset
                    && r.offset + r.length <= |logs[r.path].bytes|
                 then multiset(RefsOf(kf, lib.shardOf(value)))[r] else 0
    ensures var shown := Shown(lib, logs, kf, value, requested, NoToken, fuel);
            && |shown| == |refs|
            && forall i :: 0 <= i < |refs| ==>
                 && 0 <= refs[i].offset && refs[i].path in logs
                 && refs[i].offset + refs[i].length <= |logs[refs[i].path].bytes|
                 && shown[i] == logs[refs[i].path].bytes[refs[i].offset..refs[i].offset + refs[i].length]
  {
    hide Shown, ScanOf, Wanted, ReadLines, NoOverflow;
    var stored := RefsOf(kf, lib.shardOf(value));
    refs := References(Ordered(lib, logs, kf, value));
    MatchingSpelledOut(lib, logs, kf, value);
    TokensShowAll(lib, logs, kf, value, requested, fuel);
    OrderedCounts(lib, logs, kf, value);
    forall r
      ensures multiset(refs)[r]
           == if r.value == value && r.path in logs && 0 <= r.offset && r.offset + r.length <= |logs[r.path].bytes|
              then multiset(stored)[r] else 0
    {
      FilterCounts((r: Reference) => r.value == value && r.path in logs && 0 <= r.offset
                                     && r.offset + r.length <= |logs[r.path].bytes|, stored, r);
    }
    assert forall i :: 0 <= i < |refs| ==> multiset(refs)[refs[i]] > 0;
    ReadLinesExact(logs, refs);
  }

  lemma OrderedCounts(lib: Library, logs: Files, kf: KeyFiles, value: Text)
    ensures multiset(References(Ordered(lib, logs, kf, value))) == multiset(Matching(lib, logs, kf, value))
  {
    hide Matching;
    var refs := Matching(lib, logs, kf, value);
    SortedReferences(Enumerate(refs));
    assert References(Enumerate(refs)) == refs;
  }

  /** One page: where it starts and ends, what its lines are, and the tokens. */
  lemma PageShows(lib: Library, logs: Files, kf: KeyFiles, value: Text, requested: int, start: nat)
    requires ScanOf(kf, lib.shardOf(value)).ok && start <= |Ordered(lib, logs, kf, value)|
    requires NoOverflow(logs, RefsOf(kf, lib.shardOf(value)))
    ensures var all := Ordered(lib, logs, kf, value);
            var p := if requested <= 0 then 200 else if requested > 1000 then 1000 else requested;
            var answer := PageAnswer(lib, logs, kf, value, requested, NumberToken(start), false);
            && answer.Page?
            && |answer.lines| == (if start + p < |all| then p else |all| - start)
            && (forall i :: 0 <= i < |answer.lines| ==>
                  var r := all[start + i].ref;
                  && r.path in logs && 0 <= r.offset && r.offset + r.length <= |logs[r.path].bytes|
                  && answer.lines[i] == logs[r.path].bytes[r.offset..r.offset + r.length])
            && answer.next == (if start + p < |all| then Some(start + p) else None)
            && answer.prev == if start == 0 then None else Some(if start < p then 0 else start - p)
  {
    hide ScanOf, Ordered, ReadLines, NoOverflow, Slice, References;
    var all, p := Ordered(lib, logs, kf, value), PageSize(requested);
    SliceAt(all, start, p);
    ReferencesReadable(lib, logs, kf, value);
    LinesAtReferences(logs, all, start, Slice(all, start, p));
  }

  lemma SliceAt<T>(all: seq<T>, start: nat, p: nat)
    requires start <= |all|
    ensures var page := Slice(all, start, p);
            |page| == (if start + p < |all| then p else |all| - start) && page == all[start..start + |page|]
  {
  }

  lemma ReferencesReadable(lib: Library, logs: Files, kf: KeyFiles, value: Text)
    requires NoOverflow(logs, RefsOf(kf, lib.shardOf(value)))
    ensures forall i :: 0 <= i < |Ordered(lib, logs, kf, value)| ==>
              var r := Ordered(lib, logs, kf, value)[i].ref;
              r.path in logs && 0 <= r.offset && r.offset + r.length <= |logs[r.path].bytes|
  {
    hide ScanFile, Ordered, NoOverflow, Matching;
    MatchingSpelledOut(lib, logs, kf, value);
    var at := OrderedSpelledOut(lib, logs, kf, value);
    assert forall i :: 0 <= i < |at| ==> Ordered(lib, logs, kf, value)[i].ref in Matching(lib, logs, kf, value);
  }

  lemma LinesAtReferences(logs: Files, all: seq<Sortable>, start: nat, page: seq<Sortable>)
    requires start + |page| <= |all| && page == all[start..start + |page|]
    requires forall i :: 0 <= i < |all| ==>
               var r := all[i].ref;
               r.path in logs && 0 <= r.offset && r.offset + r.length <= |logs[r.path].bytes|
    ensures var lines := ReadLines(logs, References(page));
            && |lines| == |page|
            && forall i :: 0 <= i < |page| ==>
                 var r := all[start + i].ref;
                 lines[i] == logs[r.path].bytes[r.offset..r.offset + r.length]
  {
    hide ReadLines;
    ReadLinesExact(logs, References(page));
  }

  /** Which requests are refused: garbage, and numbers that are negative or past
      the end. */
  lemma TokenRefusedExactly(lib: Library, logs: Files, kf: KeyFiles, value: Text, requested: int, token: Token,
                            last: bool)
    requires ScanOf(kf, lib.shardOf(value)).ok
    ensures var n := |Matching(lib, logs, kf, value)|;
            PageAnswer(lib, logs, kf, value, requested, token, last) == InvalidToken
            <==> !last && (token.GarbageToken? || (token.NumberToken? && (token.n < 0 || n < token.n)))
  {
    hide ScanOf, Matching, Slice, ReadLines, References;
  }

  lemma ReferencesConcat(a: seq<Sortable>, b: seq<Sortable>)
    ensures References(a + b) == References(a) + References(b)
  {
  }

  lemma {:induction false} SortedReferences(s: seq<Sortable>)
    ensures multiset(References(SortBy(EntryLess, s))) == multiset(References(s))
  {
    hide EntryLess, Slot;
    if s != [] {
      var n := |s| - 1;
      var sorted := SortBy(EntryLess, s[..n]);
      SortedReferences(s[..n]);
      ReferencesInsert(s[n], sorted);
      assert s == s[..n] + [s[n]];
      ReferencesConcat(s[..n], [s[n]]);
    }
  }

  lemma ReferencesInsert(x: Sortable, s: seq<Sortable>)
    ensures multiset(References(Insert(EntryLess, x, s))) == multiset(References(s)) + multiset{x.ref}
  {
    hide EntryLess;
    var p := Slot(EntryLess, x, s);
    assert s == s[..p] + s[p..];
    ReferencesConcat(s[..p], s[p..]);
    ReferencesConcat(s[..p] + [x], s[p..]);
    ReferencesConcat(s[..p], [x]);
    assert References([x]) == [x.ref];
  }

  /** The last page is the page at the total minus its own length. */
  lemma LastPageIsAPage(lib: Library, logs: Files, kf: KeyFiles, value: Text, requested: int)
    ensures var n, p := |Matching(lib, logs, kf, value)|, PageSize(requested);
            PageAnswer(lib, logs, kf, value, requested, NoToken, true)
            == PageAnswer(lib, logs, kf, value, requested, NumberToken(if p < n then n - p else 0), false)
  {
    hide Ordered, Matching, ScanOf, PageOf, References, Slice;
  }

  /** Compaction changes no page: for a fixed log store GetLogs answers the
      same before and after, errors included. */
  lemma CompactKeepsPages(lib: Library, logs: Files, kf: KeyFiles, value: Text, requested: int, token: Token,
                          last: bool)
    ensures PageAnswer(lib, logs, CompactFrom(logs, kf, 0).0, value, requested, token, last)
         == PageAnswer(lib, logs, kf, value, requested, token, last)
  {
    hide ScanFile, Records, SortBy;
    var after, s := CompactFrom(logs, kf, 0).0, lib.shardOf(value);
    CompactChangesNothing(lib, logs, kf, s);
    MatchingOfAvailable(lib, logs, kf, value);
    MatchingOfAvailable(lib, logs, after, value);
  }

  lemma MatchingOfAvailable(lib: Library, logs: Files, kf: KeyFiles, value: Text)
    ensures Matching(lib, logs, kf, value)
         == Filter((r: Reference) => r.value == value, AvailableRefs(logs, kf, lib.shardOf(value)))
  {
    hide ScanFile;
    FilterTwice((r: Reference) => r.value == value, r => Available(logs, r), r => Wanted(logs, value, r),
                RefsOf(kf, lib.shardOf(value)));
  }
}
