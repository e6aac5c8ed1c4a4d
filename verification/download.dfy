/** Streaming k-way merge of the containers' lines (api/download.go). */
module Download {
  import opened Bytes
  import opened Ordering
  import opened Seqs
  import opened Writer
  import opened ChunkPaging
  import opened MergedPaging

  /** The entries of these lines that are in range, in order. */
  function InRangeEntries(stampOf: Text -> Option<Time>, start: Option<Time>, end: Option<Time>,
                          lines: seq<Text>): seq<Entry> {
    Filter(e => InRange(start, end, e), Parsed(stampOf, lines))
  }

  /** podLineIterator: one container's lines within a time range. */
  class PodLineIterator {
    const reader: ChunkReader
    const stampOf: Text -> Option<Time>
    const start: Option<Time>
    const end: Option<Time>

    constructor (reader: ChunkReader, stampOf: Text -> Option<Time>, start: Option<Time>, end: Option<Time>)
      ensures this.reader == reader && this.stampOf == stampOf && this.start == start && this.end == end
    {
      this.reader, this.stampOf, this.start, this.end := reader, stampOf, start, end;
    }

    /** The entries still to come. */
    ghost function Ahead(): seq<Entry>
      reads reader
      requires reader.Valid()
    {
      InRangeEntries(stampOf, start, end, Rest(reader.chunks, reader.idx, reader.pos))
    }

    method Next() returns (e: Entry, ok: bool)
      requires reader.Valid()
      modifies reader
      ensures reader.Valid()
      ensures ok ==> old(Ahead()) == [e] + Ahead()
      ensures !ok ==> old(Ahead()) == Ahead() == []
    {
      hide Rest, InRange, ParseTime;
      ok := true;
      while true
        invariant reader.Valid() && ok && Ahead() == old(Ahead())
        decreases |Rest(reader.chunks, reader.idx, reader.pos)|
      {
        var line;
        line, ok := reader.ReadLine();
        if !ok {
          return Entry(ZERO_TIME, []), false;
        }
        e := Entry(ParseTime(stampOf, line), line);
        AheadStep(stampOf, start, end, line, Rest(reader.chunks, reader.idx, reader.pos));
        if InRange(start, end, e) {
          return;
        }
      }
    }
  }

  lemma AheadStep(stampOf: Text -> Option<Time>, start: Option<Time>, end: Option<Time>, line: Text, rest: seq<Text>)
    ensures var e := Entry(ParseTime(stampOf, line), line);
            InRangeEntries(stampOf, start, end, [line] + rest)
            == (if InRange(start, end, e) then [e] else []) + InRangeEntries(stampOf, start, end, rest)
  {
    hide InRange, ParseTime, Parsed, Filter;
    var e := Entry(ParseTime(stampOf, line), line);
    var keep := e => InRange(start, end, e);
    ParsedFirst(stampOf, line, rest);
    FilterConcat(keep, [e], Parsed(stampOf, rest));
    FilterEmpty(keep);
    FilterStep(keep, [], e);
    assert [] + [e] == [e];
  }

  lemma ParsedFirst(stampOf: Text -> Option<Time>, line: Text, rest: seq<Text>)
    ensures Parsed(stampOf, [line] + rest) == [Entry(ParseTime(stampOf, line), line)] + Parsed(stampOf, rest)
  {
    hide ParseTime;
  }

  /** A source's entries, spelled out: the lines in range at the time they begin
      with, or at the zero time. */
  lemma InRangeSpelledOut(stampOf: Text -> Option<Time>, start: Option<Time>, end: Option<Time>, lines: seq<Text>)
    ensures var timeOf := line => if stampOf(line).Some? then stampOf(line).value else ZERO_TIME;
            var kept := Filter(line => && (start.None? || start.value <= timeOf(line))
                                       && (end.None? || timeOf(line) <= end.value), lines);
            InRangeEntries(stampOf, start, end, lines) == Mapped(line => Entry(timeOf(line), line), kept)
  {
    hide Filter;
    var timeOf := line => if stampOf(line).Some? then stampOf(line).value else ZERO_TIME;
    var keepLine := line => (start.None? || start.value <= timeOf(line)) && (end.None? || timeOf(line) <= end.value);
    FilterParsed(stampOf, e => InRange(start, end, e), keepLine, lines);
    var kept := Filter(keepLine, lines);
    assert Parsed(stampOf, kept) == Mapped(line => Entry(timeOf(line), line), kept);
  }

  /** The filter of the pod's pages and this one select the same lines if and only
      if every line has a time of its own or the zero time is in range. */
  lemma FiltersAgreeExactly(stampOf: Text -> Option<Time>, start: Option<Time>, end: Option<Time>, lines: seq<Text>)
    ensures Filter(line => Matches(stampOf, start, end, line), lines)
            == Mapped((e: Entry) => e.line, InRangeEntries(stampOf, start, end, lines))
       <==> || (forall line :: line in lines ==> stampOf(line).Some?)
            || ((start.None? || start.value <= ZERO_TIME) && (end.None? || ZERO_TIME <= end.value))
  {
    hide Filter;
    var narrow := line => InRange(start, end, Entry(ParseTime(stampOf, line), line));
    var wide := line => Matches(stampOf, start, end, line);
    FilterParsed(stampOf, e => InRange(start, end, e), narrow, lines);
    assert Mapped((e: Entry) => e.line, Parsed(stampOf, Filter(narrow, lines))) == Filter(narrow, lines);
    FilterNarrower(narrow, wide, lines);
  }

  /** mergeItem: a candidate line, when it was peeked, and its iterator. */
  datatype MergeItem = MergeItem(entry: Entry, idx: nat, source: nat)

  predicate MergeLess(a: MergeItem, b: MergeItem) {
    if a.entry.ts == b.entry.ts then a.idx < b.idx else a.entry.ts < b.entry.ts
  }

  lemma MergeOrder()
    ensures WeakOrder(MergeLess)
  {
    forall a, b, c
      ensures Coherent(MergeLess, a, b, c)
    {
    }
  }

  /** What one source contributed to the output, in output order. */
  function FromSource(out: seq<MergeItem>, source: nat): seq<Entry> {
    if out == [] then []
    else
      var before := FromSource(out[..|out| - 1], source);
      if out[|out| - 1].source == source then before + [out[|out| - 1].entry] else before
  }

  function EntriesOf(out: seq<MergeItem>): (r: seq<Entry>)
    ensures |r| == |out|
  {
    Mapped((x: MergeItem) => x.entry, out)
  }

  /** The one item a source has in the heap, if any. */
  function Held(items: seq<MergeItem>, source: nat): seq<Entry> {
    if items == [] then []
    else if items[0].source == source then [items[0].entry]
    else Held(items[1..], source)
  }

  ghost predicate OnePerSource(items: seq<MergeItem>) {
    forall i, j :: 0 <= i < j < |items| ==> items[i].source != items[j].source
  }

  lemma {:induction false} HeldPush(items: seq<MergeItem>, x: MergeItem, source: nat)
    ensures Held(items + [x], source)
         == if Held(items, source) != [] then Held(items, source) else if x.source == source then [x.entry] else []
  {
    if items == [] {
      assert items + [x] == [x] && Held([x][1..], source) == [];
    } else {
      assert (items + [x])[1..] == items[1..] + [x];
      HeldPush(items[1..], x, source);
    }
  }

  lemma {:induction false} HeldPop(items: seq<MergeItem>, at: nat, source: nat)
    requires at < |items| && OnePerSource(items)
    ensures Held(items[..at] + items[at + 1..], source) == if items[at].source == source then []
              else Held(items, source)
    ensures items[at].source == source ==> Held(items, source) == [items[at].entry]
  {
    if at == 0 {
      assert items[..0] + items[1..] == items[1..];
      if items[0].source == source {
        HeldNone(items[1..], source);
      }
    } else {
      assert (items[..at] + items[at + 1..])[1..] == items[1..][..at - 1] + items[1..][at..];
      HeldPop(items[1..], at - 1, source);
    }
  }

  lemma {:induction false} HeldNone(items: seq<MergeItem>, source: nat)
    requires forall i :: 0 <= i < |items| ==> items[i].source != source
    ensures Held(items, source) == []
  {
    if items != [] {
      HeldNone(items[1..], source);
    }
  }

  lemma FromSourceStep(out: seq<MergeItem>, x: MergeItem, source: nat)
    ensures FromSource(out + [x], source)
         == if x.source == source then FromSource(out, source) + [x.entry] else FromSource(out, source)
  {
    assert (out + [x])[..|out|] == out;
  }

  // ----- The merge -----

  /** Source `i` is what it gave the output, what it has in the heap, and what
      is still ahead of it. */
  ghost predicate Accounted(source: seq<Entry>, out: seq<MergeItem>, items: seq<MergeItem>, ahead: seq<Entry>, i: nat) {
    source == FromSource(out, i) + Held(items, i) + ahead
  }

  ghost predicate Split(sources: seq<seq<Entry>>, out: seq<MergeItem>, items: seq<MergeItem>, ahead: seq<seq<Entry>>) {
    && |ahead| == |sources| && OnePerSource(items)
    && (forall i :: 0 <= i < |sources| ==> Accounted(sources[i], out, items, ahead[i], i))
    && (forall k :: 0 <= k < |items| ==> items[k].source < |sources|)
    && (forall k :: 0 <= k < |out| ==> out[k].source < |sources|)
  }

  lemma AccountedPop(source: seq<Entry>, out: seq<MergeItem>, items: seq<MergeItem>, ahead: seq<Entry>, at: nat, i: nat)
    requires at < |items| && OnePerSource(items) && Accounted(source, out, items, ahead, i)
    ensures Accounted(source, out + [items[at]], items[..at] + items[at + 1..], ahead, i)
    ensures Held(items[..at] + items[at + 1..], i) == if items[at].source == i then [] else Held(items, i)
    ensures items[at].source == i ==> source == FromSource(out, i) + [items[at].entry] + ahead
  {
    hide FromSource, Held;
    var x, rest := items[at], items[..at] + items[at + 1..];
    HeldPop(items, at, i);
    FromSourceStep(out, x, i);
    if x.source == i {
      var f := FromSource(out, i) + [x.entry];
      assert f + [] + ahead == f + ahead;
    }
  }

  lemma SplitPop(sources: seq<seq<Entry>>, out: seq<MergeItem>, items: seq<MergeItem>, ahead: seq<seq<Entry>>, at: nat)
    requires Split(sources, out, items, ahead) && at < |items|
    ensures Split(sources, out + [items[at]], items[..at] + items[at + 1..], ahead)
    ensures forall i :: 0 <= i < |sources| ==>
              Held(items[..at] + items[at + 1..], i) == if items[at].source == i then [] else Held(items, i)
    ensures items[at].source < |sources| && Held(items[..at] + items[at + 1..], items[at].source) == []
    ensures var x := items[at]; sources[x.source] == FromSource(out, x.source) + [x.entry] + ahead[x.source]
  {
    hide FromSource, Held, Accounted;
    forall i: nat | i < |sources|
      ensures Accounted(sources[i], out + [items[at]], items[..at] + items[at + 1..], ahead[i], i)
      ensures Held(items[..at] + items[at + 1..], i) == if items[at].source == i then [] else Held(items, i)
    {
      AccountedPop(sources[i], out, items, ahead[i], at, i);
    }
    AccountedPop(sources[items[at].source], out, items, ahead[items[at].source], at, items[at].source);
  }

  lemma AccountedPush(source: seq<Entry>, out: seq<MergeItem>, items: seq<MergeItem>, ahead: seq<Entry>, x: MergeItem,
                      i: nat)
    requires Accounted(source, out, items, ahead, i) && Held(items, x.source) == []
    ensures i != x.source ==> Accounted(source, out, items + [x], ahead, i)
    ensures i == x.source && ahead != [] && ahead[0] == x.entry ==> Accounted(source, out, items + [x], ahead[1..], i)
    ensures Held(items + [x], i) == if i == x.source then [x.entry] else Held(items, i)
  {
    hide FromSource, Held;
    HeldPush(items, x, i);
    if i == x.source && ahead != [] && ahead[0] == x.entry {
      assert ahead == [x.entry] + ahead[1..];
      assert FromSource(out, i) + [] == FromSource(out, i);
      Associate(FromSource(out, i), [x.entry], ahead[1..]);
    }
  }

  lemma SplitPush(sources: seq<seq<Entry>>, out: seq<MergeItem>, items: seq<MergeItem>, ahead: seq<seq<Entry>>,
                  x: MergeItem)
    requires Split(sources, out, items, ahead) && x.source < |sources| && Held(items, x.source) == []
    requires ahead[x.source] != [] && ahead[x.source][0] == x.entry
    ensures Split(sources, out, items + [x], ahead[x.source := ahead[x.source][1..]])
    ensures forall i :: 0 <= i < |sources| ==>
              Held(items + [x], i) == if i == x.source then [x.entry] else Held(items, i)
  {
    hide FromSource, Held, Accounted;
    forall i: nat | i < |sources|
      ensures Accounted(sources[i], out, items + [x], ahead[x.source := ahead[x.source][1..]][i], i)
      ensures Held(items + [x], i) == if i == x.source then [x.entry] else Held(items, i)
    {
      AccountedPush(sources[i], out, items, ahead[i], x, i);
    }
    forall i | 0 <= i < |items|
      ensures items[i].source != x.source
    {
      NotHeld(items, x.source, i);
    }
  }

  lemma {:induction false} NotHeld(items: seq<MergeItem>, source: nat, i: nat)
    requires i < |items| && Held(items, source) == []
    ensures items[i].source != source
  {
    if i > 0 {
      NotHeld(items[1..], source, i - 1);
    }
  }

  /** A source with nothing in the heap has nothing ahead either. */
  ghost predicate Filled(items: seq<MergeItem>, ahead: seq<seq<Entry>>, n: nat) {
    forall i :: 0 <= i < n && i < |ahead| && Held(items, i) == [] ==> ahead[i] == []
  }

  /** The same for every source below `n` but one. */
  ghost predicate FilledBut(items: seq<MergeItem>, ahead: seq<seq<Entry>>, n: nat, source: nat) {
    forall i :: 0 <= i < n && i < |ahead| && i != source && Held(items, i) == [] ==> ahead[i] == []
  }

  // ----- Time order -----

  ghost predicate AllOrdered(sources: seq<seq<Entry>>) {
    forall i :: 0 <= i < |sources| ==> InTimeOrder(sources[i])
  }

  /** The output so far is in time order, and nothing held is before it. */
  ghost predicate OrderedSoFar(out: seq<MergeItem>, items: seq<MergeItem>) {
    && InTimeOrder(EntriesOf(out))
    && forall j, k :: 0 <= j < |out| && 0 <= k < |items| ==> out[j].entry.ts <= items[k].entry.ts
  }

  lemma OrderedPop(out: seq<MergeItem>, items: seq<MergeItem>, at: nat)
    requires OrderedSoFar(out, items) && at < |items|
    requires forall y :: y in items ==> !MergeLess(y, items[at])
    ensures OrderedSoFar(out + [items[at]], items[..at] + items[at + 1..])
  {
    var x, rest, next := items[at], items[..at] + items[at + 1..], out + [items[at]];
    assert forall k :: 0 <= k < |items| ==> x.entry.ts <= items[k].entry.ts by {
      forall k | 0 <= k < |items|
        ensures x.entry.ts <= items[k].entry.ts
      {
        assert items[k] in items;
      }
    }
    assert forall k :: 0 <= k < |rest| ==> rest[k] == items[if k < at then k else k + 1];
    forall i, j | 0 <= i < j < |next|
      ensures EntriesOf(next)[i].ts <= EntriesOf(next)[j].ts
    {
      if j < |out| {
        assert EntriesOf(out)[i].ts <= EntriesOf(out)[j].ts;
      }
    }
  }

  lemma OrderedPush(out: seq<MergeItem>, items: seq<MergeItem>, x: MergeItem)
    requires OrderedSoFar(out, items)
    requires out != [] ==> out[|out| - 1].entry.ts <= x.entry.ts
    ensures OrderedSoFar(out, items + [x])
  {
    forall j | 0 <= j < |out|
      ensures out[j].entry.ts <= x.entry.ts
    {
      assert EntriesOf(out)[j].ts <= EntriesOf(out)[|out| - 1].ts;
    }
  }

  // ----- Ties -----

  /** Lines of the same time come out in the order they were peeked, which `idx`
      numbers; `counter` is the next number. */
  ghost predicate TiesSoFar(out: seq<MergeItem>, items: seq<MergeItem>, counter: nat) {
    && (forall k :: 0 <= k < |items| ==> items[k].idx < counter)
    && (forall j, k :: 0 <= j < k < |items| ==> items[j].idx != items[k].idx)
    && (forall j, k :: 0 <= j < |out| && 0 <= k < |items| && out[j].entry.ts == items[k].entry.ts ==>
          out[j].idx < items[k].idx)
    && (forall j :: 0 <= j < |out| ==> out[j].idx < counter)
    && (forall i, j :: 0 <= i < j < |out| && out[i].entry.ts == out[j].entry.ts ==> out[i].idx < out[j].idx)
  }

  lemma TiesPop(out: seq<MergeItem>, items: seq<MergeItem>, at: nat, counter: nat)
    requires TiesSoFar(out, items, counter) && at < |items|
    requires forall y :: y in items ==> !MergeLess(y, items[at])
    ensures TiesSoFar(out + [items[at]], items[..at] + items[at + 1..], counter)
  {
    var rest := items[..at] + items[at + 1..];
    forall k | 0 <= k < |rest|
      ensures rest[k] == items[if k < at then k else k + 1]
      ensures items[at].entry.ts == rest[k].entry.ts ==> items[at].idx < rest[k].idx
    {
      assert !MergeLess(items[if k < at then k else k + 1], items[at]);
    }
  }

  lemma TiesPush(out: seq<MergeItem>, items: seq<MergeItem>, x: MergeItem, counter: nat)
    requires TiesSoFar(out, items, counter) && x.idx == counter
    ensures TiesSoFar(out, items + [x], counter + 1)
  {
  }

  lemma TiesStart()
    ensures TiesSoFar([], [], 0)
  {
  }

  lemma TiesEnd(out: seq<MergeItem>, items: seq<MergeItem>, counter: nat)
    requires TiesSoFar(out, items, counter)
    ensures forall i, j :: 0 <= i < j < |out| && out[i].entry.ts == out[j].entry.ts ==> out[i].idx < out[j].idx
  {
  }

  // ----- Counting -----

  /** How many of the first `n` sources' entries the output has. */
  function GivenBy(out: seq<MergeItem>, n: nat): nat {
    if n == 0 then 0 else GivenBy(out, n - 1) + |FromSource(out, n - 1)|
  }

  function TotalOf(sources: seq<seq<Entry>>, n: nat): nat
    requires n <= |sources|
  {
    if n == 0 then 0 else TotalOf(sources, n - 1) + |sources[n - 1]|
  }

  lemma {:induction false} GivenByStep(out: seq<MergeItem>, x: MergeItem, n: nat)
    ensures GivenBy(out + [x], n) == GivenBy(out, n) + if x.source < n then 1 else 0
  {
    hide FromSource;
    if n > 0 {
      GivenByStep(out, x, n - 1);
      FromSourceStep(out, x, n - 1);
    }
  }

  lemma {:induction false} GivenNothing(n: nat)
    ensures GivenBy([], n) == 0
  {
    if n > 0 {
      GivenNothing(n - 1);
    }
  }

  lemma {:induction false} GivenBounded(sources: seq<seq<Entry>>, out: seq<MergeItem>, items: seq<MergeItem>,
                                        ahead: seq<seq<Entry>>, n: nat)
    requires Split(sources, out, items, ahead) && n <= |sources|
    ensures GivenBy(out, n) <= TotalOf(sources, n)
  {
    hide FromSource, Held;
    if n > 0 {
      GivenBounded(sources, out, items, ahead, n - 1);
      assert Accounted(sources[n - 1], out, items, ahead[n - 1], n - 1);
    }
  }

  /** What each iterator still has to give. */
  ghost predicate Yields(iterators: seq<PodLineIterator>, ahead: seq<seq<Entry>>)
    reads set it | it in iterators :: it.reader
  {
    && |ahead| == |iterators|
    && forall i :: 0 <= i < |iterators| ==> iterators[i].reader.Valid() && iterators[i].Ahead() == ahead[i]
  }

  ghost predicate Apart(iterators: seq<PodLineIterator>) {
    forall i, j :: 0 <= i < j < |iterators| ==> iterators[i].reader != iterators[j].reader
  }

  lemma YieldsLength(iterators: seq<PodLineIterator>, ahead: seq<seq<Entry>>)
    requires Yields(iterators, ahead)
    ensures |ahead| == |iterators|
  {
  }

  /** The next candidate of one source, if it has any. */
  method Peek(iterators: seq<PodLineIterator>, ghost ahead: seq<seq<Entry>>, source: nat, counter: nat)
    returns (x: Option<MergeItem>, ghost ahead': seq<seq<Entry>>)
    requires Apart(iterators) && Yields(iterators, ahead) && source < |iterators|
    modifies iterators[source].reader
    ensures Yields(iterators, ahead')
    ensures ahead[source] == [] ==> x == None && ahead' == ahead
    ensures ahead[source] != [] ==> x == Some(MergeItem(ahead[source][0], counter, source))
                                    && ahead' == ahead[source := ahead[source][1..]]
  {
    hide InRangeEntries, Rest;
    var e, ok := iterators[source].Next();
    if ok {
      return Some(MergeItem(e, counter, source)), ahead[source := ahead[source][1..]];
    }
    return None, ahead;
  }

  /** mergeLinesByTime.  The output is an interleaving of the sources, each
      whole and in its own order, in time order if every source is, lines of the
      same time in the order they were peeked.  `heaps` is what is held after each
      refill: at most one entry a source. */
  method MergeLinesByTime(iterators: seq<PodLineIterator>, ghost sources: seq<seq<Entry>>)
    returns (out: seq<MergeItem>, ghost heaps: seq<seq<MergeItem>>)
    requires Apart(iterators) && Yields(iterators, sources)
    modifies set it | it in iterators :: it.reader
    ensures forall i :: 0 <= i < |sources| ==> FromSource(out, i) == sources[i]
    ensures forall k :: 0 <= k < |out| ==> out[k].source < |sources|
    ensures AllOrdered(sources) ==> InTimeOrder(EntriesOf(out))
    ensures forall i, j :: 0 <= i < j < |out| && out[i].entry.ts == out[j].entry.ts ==> out[i].idx < out[j].idx
    ensures |heaps| == |iterators| + |out| && forall k :: 0 <= k < |heaps| ==>
              OnePerSource(heaps[k]) && |heaps[k]| <= |iterators|
  {
    hide FromSource, Held, Split, MergeLess, Filled, FilledBut, OrderedSoFar, OnePerSource, Yields, Apart, TotalOf,
         GivenBy, AllOrdered, Filling, Running, TiesSoFar, Small;
    YieldsLength(iterators, sources);
    var n := |iterators|;
    var h := new PageHeap(MergeLess, true);
    ghost var ahead := sources;
    var counter := 0;
    out, heaps := [], [];
    MergeOrder();
    FillStarts(sources);
    TiesStart();
    SmallStarts(n);
    for i := 0 to n
      invariant fresh(h) && h.less == MergeLess && h.keepNewest && |ahead| == n && Yields(iterators, ahead)
      invariant TiesSoFar(out, h.entries, counter) && out == []
      invariant Filling(sources, h.entries, ahead, i) && |h.entries| <= i == |heaps|
      invariant Small(heaps, n)
    {
      FillRound(sources, h.entries, ahead, i, counter);
      var x;
      x, ahead := Peek(iterators, ahead, i, counter);
      if x.Some? {
        TiesPush(out, h.entries, x.value, counter);
        h.Push(x.value);
        counter := counter + 1;
      }
      FillingHolds(sources, h.entries, ahead, i + 1);
      SmallStep(heaps, h.entries, n);
      heaps := heaps + [h.entries];
    }
    FillEnds(sources, h.entries, ahead);
    while |h.entries| > 0
      invariant fresh(h) && h.less == MergeLess && h.keepNewest && |ahead| == n && Yields(iterators, ahead)
      invariant Running(sources, out, h.entries, ahead) && |h.entries| <= n
      invariant |heaps| == n + |out| && TiesSoFar(out, h.entries, counter)
      invariant Small(heaps, n)
      decreases TotalOf(sources, n) - |out|
    {
      ghost var held, prior := h.entries, ahead;
      var item, at := h.Pop();
      Round(sources, out, held, ahead, at, counter);
      TiesPop(out, held, at, counter);
      out := out + [item];
      var x;
      x, ahead := Peek(iterators, ahead, item.source, counter);
      if x.Some? {
        TiesPush(out, h.entries, x.value, counter);
        h.Push(x.value);
        counter := counter + 1;
      }
      RunningHolds(sources, out, h.entries, ahead);
      SmallStep(heaps, h.entries, n);
      heaps := heaps + [h.entries];
    }
    RunningHolds(sources, out, [], ahead);
    MergeEnds(sources, out, ahead);
    TiesEnd(out, h.entries, counter);
    SmallHolds(heaps, n);
  }

  /** Each heap has at most one entry a source. */
  ghost predicate Small(heaps: seq<seq<MergeItem>>, n: nat) {
    forall k :: 0 <= k < |heaps| ==> OnePerSource(heaps[k]) && |heaps[k]| <= n
  }

  lemma SmallStarts(n: nat)
    ensures Small([], n)
  {
  }

  lemma SmallStep(heaps: seq<seq<MergeItem>>, items: seq<MergeItem>, n: nat)
    requires Small(heaps, n) && OnePerSource(items) && |items| <= n
    ensures Small(heaps + [items], n)
  {
    hide OnePerSource;
  }

  lemma SmallHolds(heaps: seq<seq<MergeItem>>, n: nat)
    requires Small(heaps, n)
    ensures forall k :: 0 <= k < |heaps| ==> OnePerSource(heaps[k]) && |heaps[k]| <= n
  {
  }

  /** The heap while the first sources are peeked: nothing is out yet. */
  ghost predicate Filling(sources: seq<seq<Entry>>, items: seq<MergeItem>, ahead: seq<seq<Entry>>, i: nat) {
    && Split(sources, [], items, ahead) && Filled(items, ahead, i) && OrderedSoFar([], items)
    && forall j :: i <= j < |sources| ==> Held(items, j) == []
  }

  lemma FillStarts(sources: seq<seq<Entry>>)
    ensures Filling(sources, [], sources, 0)
  {
    hide Split, Filled, OrderedSoFar, Held;
    StartSplit(sources);
  }

  lemma FillingHolds(sources: seq<seq<Entry>>, items: seq<MergeItem>, ahead: seq<seq<Entry>>, i: nat)
    requires Filling(sources, items, ahead, i)
    ensures OnePerSource(items)
  {
    hide Split, OnePerSource, Held;
    HeldOnce(sources, [], items, ahead);
  }

  lemma FillRound(sources: seq<seq<Entry>>, items: seq<MergeItem>, ahead: seq<seq<Entry>>, i: nat, counter: nat)
    requires Filling(sources, items, ahead, i) && i < |sources| == |ahead|
    ensures if ahead[i] == [] then Filling(sources, items, ahead, i + 1)
            else Filling(sources, items + [MergeItem(ahead[i][0], counter, i)], ahead[i := ahead[i][1..]], i + 1)
  {
    hide Split, Filled, FilledBut, OrderedSoFar, Held;
    FilledWeaken(items, ahead, i, i);
    RefillStep(sources, [], items, ahead, counter, i, i);
    if ahead[i] != [] {
      OrderedPush([], items, MergeItem(ahead[i][0], counter, i));
    }
  }

  lemma FillEnds(sources: seq<seq<Entry>>, items: seq<MergeItem>, ahead: seq<seq<Entry>>)
    requires Filling(sources, items, ahead, |sources|)
    ensures Running(sources, [], items, ahead)
  {
    hide Split, Filled, OrderedSoFar, Held, GivenBy;
    GivenNothing(|sources|);
  }

  /** The merge between two lines: every source accounted for, and in the heap
      if it has more; the output ordered if the sources are. */
  ghost predicate Running(sources: seq<seq<Entry>>, out: seq<MergeItem>, items: seq<MergeItem>,
                          ahead: seq<seq<Entry>>)
  {
    && Split(sources, out, items, ahead) && Filled(items, ahead, |sources|)
    && |out| == GivenBy(out, |sources|) <= TotalOf(sources, |sources|)
    && (AllOrdered(sources) ==> OrderedSoFar(out, items))
  }

  lemma RunningHolds(sources: seq<seq<Entry>>, out: seq<MergeItem>, items: seq<MergeItem>, ahead: seq<seq<Entry>>)
    requires Running(sources, out, items, ahead)
    ensures OnePerSource(items) && Split(sources, out, items, ahead) && Filled(items, ahead, |sources|)
    ensures |out| <= TotalOf(sources, |sources|)
    ensures AllOrdered(sources) ==> OrderedSoFar(out, items)
  {
    hide Split, Filled, OrderedSoFar, OnePerSource, GivenBy, TotalOf;
    HeldOnce(sources, out, items, ahead);
  }

  /** One round: the least line is written, and its source peeked again. */
  lemma Round(sources: seq<seq<Entry>>, out: seq<MergeItem>, items: seq<MergeItem>, ahead: seq<seq<Entry>>, at: nat,
              counter: nat)
    requires Running(sources, out, items, ahead) && at < |items|
    requires forall y :: y in items ==> !MergeLess(y, items[at])
    ensures |ahead| == |sources| && items[at].source < |sources|
    ensures |out| < TotalOf(sources, |sources|)
    ensures var item, rest := items[at], items[..at] + items[at + 1..];
            var left := ahead[item.source];
            if left == [] then Running(sources, out + [item], rest, ahead)
            else Running(sources, out + [item], rest + [MergeItem(left[0], counter, item.source)],
                         ahead[item.source := left[1..]])
  {
    hide FromSource, Held, Split, MergeLess, Filled, FilledBut, OrderedSoFar, OnePerSource, GivenBy, TotalOf;
    SplitLength(sources, out, items, ahead);
    PopStep(sources, out, items, ahead, at);
    var item, rest := items[at], items[..at] + items[at + 1..];
    RefillStep(sources, out + [item], rest, ahead, counter, item.source, |sources|);
    if ahead[item.source] != [] && AllOrdered(sources) {
      SourceGoesOn(sources, out, ahead, item);
      OrderedPush(out + [item], rest, MergeItem(ahead[item.source][0], counter, item.source));
    }
  }

  lemma SplitLength(sources: seq<seq<Entry>>, out: seq<MergeItem>, items: seq<MergeItem>, ahead: seq<seq<Entry>>)
    requires Split(sources, out, items, ahead)
    ensures |ahead| == |sources|
  {
  }

  lemma HeldOnce(sources: seq<seq<Entry>>, out: seq<MergeItem>, items: seq<MergeItem>, ahead: seq<seq<Entry>>)
    requires Split(sources, out, items, ahead)
    ensures OnePerSource(items)
  {
  }

  /** Everything one Pop does. */
  lemma PopStep(sources: seq<seq<Entry>>, out: seq<MergeItem>, items: seq<MergeItem>, ahead: seq<seq<Entry>>, at: nat)
    requires Split(sources, out, items, ahead) && at < |items| && Filled(items, ahead, |sources|)
    requires forall y :: y in items ==> !MergeLess(y, items[at])
    requires |out| == GivenBy(out, |sources|)
    ensures var x, rest := items[at], items[..at] + items[at + 1..];
            && x.source < |sources| && Held(rest, x.source) == []
            && Split(sources, out + [x], rest, ahead)
            && FilledBut(rest, ahead, |sources|, x.source)
            && |out| + 1 == GivenBy(out + [x], |sources|) <= TotalOf(sources, |sources|)
            && sources[x.source] == FromSource(out, x.source) + [x.entry] + ahead[x.source]
            && (OrderedSoFar(out, items) ==> OrderedSoFar(out + [x], rest))
  {
    hide FromSource, Held, Split, MergeLess, Filled, FilledBut, OrderedSoFar, GivenBy, TotalOf;
    var x := items[at];
    SplitPop(sources, out, items, ahead, at);
    GivenByStep(out, x, |sources|);
    GivenBounded(sources, out + [x], items[..at] + items[at + 1..], ahead, |sources|);
    FilledPop(sources, out, items, ahead, at);
    if OrderedSoFar(out, items) {
      OrderedPop(out, items, at);
    }
  }

  lemma StartSplit(sources: seq<seq<Entry>>)
    ensures Split(sources, [], [], sources) && OrderedSoFar([], []) && Filled([], sources, 0)
    ensures forall j :: 0 <= j < |sources| ==> Held([], j) == []
  {
    forall i: nat | i < |sources|
      ensures Accounted(sources[i], [], [], sources[i], i)
    {
      assert [] + [] + sources[i] == sources[i];
    }
  }

  /** The state after refilling `source`, whether or not it has a next line. */
  lemma RefillStep(sources: seq<seq<Entry>>, out: seq<MergeItem>, items: seq<MergeItem>, ahead: seq<seq<Entry>>,
                   counter: nat, source: nat, filled: nat)
    requires Split(sources, out, items, ahead) && source < |sources| && Held(items, source) == []
    requires FilledBut(items, ahead, filled, source)
    ensures ahead[source] == [] ==> Filled(items, ahead, filled + if filled == source then 1 else 0)
    ensures ahead[source] != [] ==>
              var x, after := MergeItem(ahead[source][0], counter, source), ahead[source := ahead[source][1..]];
              && Split(sources, out, items + [x], after)
              && Filled(items + [x], after, filled + if filled == source then 1 else 0)
              && (forall i :: 0 <= i < |sources| && i != source ==> Held(items + [x], i) == Held(items, i))
  {
    hide FromSource, Held, Accounted;
    if ahead[source] != [] {
      SplitPush(sources, out, items, ahead, MergeItem(ahead[source][0], counter, source));
    }
  }

  lemma FilledWeaken(items: seq<MergeItem>, ahead: seq<seq<Entry>>, n: nat, source: nat)
    requires Filled(items, ahead, n)
    ensures FilledBut(items, ahead, n, source)
  {
  }

  lemma FilledPop(sources: seq<seq<Entry>>, out: seq<MergeItem>, items: seq<MergeItem>, ahead: seq<seq<Entry>>, at: nat)
    requires Split(sources, out, items, ahead) && at < |items| && Filled(items, ahead, |sources|)
    ensures FilledBut(items[..at] + items[at + 1..], ahead, |sources|, items[at].source)
  {
    hide FromSource, Held, Accounted;
    SplitPop(sources, out, items, ahead, at);
  }

  /** In an ordered source the next entry is not before the one just written. */
  lemma SourceGoesOn(sources: seq<seq<Entry>>, out: seq<MergeItem>, ahead: seq<seq<Entry>>, x: MergeItem)
    requires AllOrdered(sources) && |ahead| == |sources| && x.source < |sources|
    requires sources[x.source] == FromSource(out, x.source) + [x.entry] + ahead[x.source]
    requires ahead[x.source] != []
    ensures x.entry.ts <= ahead[x.source][0].ts
  {
    hide FromSource;
    var s, k := sources[x.source], |FromSource(out, x.source)|;
    assert s[k] == x.entry && s[k + 1] == ahead[x.source][0];
    assert InTimeOrder(s);
  }

  lemma MergeEnds(sources: seq<seq<Entry>>, out: seq<MergeItem>, ahead: seq<seq<Entry>>)
    requires Split(sources, out, [], ahead) && Filled([], ahead, |sources|)
    ensures forall i :: 0 <= i < |sources| ==> FromSource(out, i) == sources[i]
    ensures forall k :: 0 <= k < |out| ==> out[k].source < |sources|
    ensures OrderedSoFar(out, []) ==> InTimeOrder(EntriesOf(out))
  {
    hide FromSource;
    forall i: nat | i < |sources|
      ensures FromSource(out, i) == sources[i]
    {
      assert Accounted(sources[i], out, [], ahead[i], i);
      assert Held([], i) == [];
    }
  }
}
