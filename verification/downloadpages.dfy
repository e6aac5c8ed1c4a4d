/** A download and a walk of the merged pages show the same lines. */
module DownloadPages {
  import opened Bytes
  import opened Ordering
  import opened Seqs
  import opened Writer
  import opened ChunkPaging
  import opened MergedPaging
  import opened Download

  // ----- The output is the union of its sources -----

  /** What the first `n` sources gave the output, order aside. */
  function GivenBag(out: seq<MergeItem>, n: nat): multiset<Entry> {
    if n == 0 then multiset{} else GivenBag(out, n - 1) + multiset(FromSource(out, n - 1))
  }

  lemma GivenBagUnfold(out: seq<MergeItem>, n: nat)
    ensures GivenBag(out, n) == if n == 0 then multiset{} else GivenBag(out, n - 1) + multiset(FromSource(out, n - 1))
  {
    hide FromSource;
  }

  lemma {:induction false} GivenBagStep(out: seq<MergeItem>, x: MergeItem, n: nat)
    ensures GivenBag(out + [x], n) == GivenBag(out, n) + if x.source < n then multiset{x.entry} else multiset{}
  {
    hide FromSource, GivenBag;
    GivenBagUnfold(out, n);
    GivenBagUnfold(out + [x], n);
    if n > 0 {
      GivenBagStep(out, x, n - 1);
      FromSourceStep(out, x, n - 1);
      var had, last := GivenBag(out, n - 1), multiset(FromSource(out, n - 1));
      var more := if x.source < n then multiset{x.entry} else multiset{};
      if x.source == n - 1 {
        BagSnoc(FromSource(out, n - 1), x.entry);
      }
      BagStep(had, last, more, GivenBag(out + [x], n - 1), multiset(FromSource(out + [x], n - 1)));
    }
  }

  lemma {:induction false} GivenBagNothing(n: nat)
    ensures GivenBag([], n) == multiset{}
  {
    if n > 0 {
      GivenBagNothing(n - 1);
    }
  }

  lemma {:induction false} OutputBag(out: seq<MergeItem>, n: nat)
    requires forall k :: 0 <= k < |out| ==> out[k].source < n
    ensures multiset(EntriesOf(out)) == GivenBag(out, n)
  {
    if out == [] {
      GivenBagNothing(n);
    } else {
      var before, x := out[..|out| - 1], out[|out| - 1];
      assert out == before + [x];
      assert EntriesOf(out) == EntriesOf(before) + [x.entry];
      OutputBag(before, n);
      GivenBagStep(before, x, n);
    }
  }

  // ----- The kept entries of a set of segments, in whatever order -----

  function Entries(stampOf: Text -> Option<Time>, c: Chunk): seq<Entry> {
    Parsed(stampOf, LinesAt(c.bytes, 0))
  }

  function Bag(keep: Entry -> bool, stampOf: Text -> Option<Time>, chunks: seq<Chunk>): multiset<Entry> {
    Union(c => multiset(Filter(keep, Entries(stampOf, c))), chunks)
  }

  function SegmentLines(chunks: seq<Chunk>): (r: seq<seq<Text>>)
    ensures |r| == |chunks|
  {
    seq(|chunks|, i requires 0 <= i < |chunks| => LinesAt(chunks[i].bytes, 0))
  }

  lemma {:induction false} ScanBag(keep: Entry -> bool, stampOf: Text -> Option<Time>, chunks: seq<Chunk>)
    ensures multiset(Filter(keep, AllEntries(stampOf, SegmentLines(chunks)))) == Bag(keep, stampOf, chunks)
  {
    hide LinesAt;
    if chunks == [] {
      FilterEmpty(keep);
    } else {
      var n := |chunks| - 1;
      var before, last := chunks[..n], chunks[n];
      assert chunks == before + [last];
      assert SegmentLines(chunks)[..n] == SegmentLines(before);
      ScanBag(keep, stampOf, before);
      FilterConcat(keep, AllEntries(stampOf, SegmentLines(before)), Entries(stampOf, last));
      var bag := c => multiset(Filter(keep, Entries(stampOf, c)));
      UnionConcat(bag, before, [last]);
      UnionOne(bag, last);
    }
  }

  lemma RestStep(chunks: seq<Chunk>, idx: nat)
    requires idx < |chunks|
    ensures Rest(chunks, idx, 0) == LinesAt(chunks[idx].bytes, 0) + Rest(chunks, idx + 1, 0)
  {
    hide LinesAt;
  }

  lemma ParsedConcat(stampOf: Text -> Option<Time>, a: seq<Text>, b: seq<Text>)
    ensures Parsed(stampOf, a + b) == Parsed(stampOf, a) + Parsed(stampOf, b)
  {
  }

  lemma BagFrom(keep: Entry -> bool, stampOf: Text -> Option<Time>, chunks: seq<Chunk>, idx: nat)
    requires idx <= |chunks|
    ensures Bag(keep, stampOf, chunks[idx..])
         == if idx == |chunks| then multiset{}
            else multiset(Filter(keep, Entries(stampOf, chunks[idx]))) + Bag(keep, stampOf, chunks[idx + 1..])
  {
    hide Filter, Entries;
    if idx < |chunks| {
      assert chunks[idx..][0] == chunks[idx];
      assert chunks[idx..][1..] == chunks[idx + 1..];
    }
  }

  lemma {:induction false} RestBag(keep: Entry -> bool, stampOf: Text -> Option<Time>, chunks: seq<Chunk>, idx: nat)
    requires idx <= |chunks|
    ensures multiset(Filter(keep, Parsed(stampOf, Rest(chunks, idx, 0)))) == Bag(keep, stampOf, chunks[idx..])
    decreases |chunks| - idx
  {
    BagFrom(keep, stampOf, chunks, idx);
    if idx == |chunks| {
      assert Parsed(stampOf, Rest(chunks, idx, 0)) == [];
      FilterEmpty(keep);
    } else {
      hide LinesAt, Rest, Bag, Filter, Parsed;
      RestBag(keep, stampOf, chunks, idx + 1);
      RestStep(chunks, idx);
      var here, there := LinesAt(chunks[idx].bytes, 0), Rest(chunks, idx + 1, 0);
      ParsedConcat(stampOf, here, there);
      FilterConcat(keep, Parsed(stampOf, here), Parsed(stampOf, there));
    }
  }

  lemma BagOfJoined(keep: Entry -> bool, stampOf: Text -> Option<Time>, containers: seq<seq<Chunk>>, n: nat)
    requires 0 < n <= |containers|
    ensures Bag(keep, stampOf, Joined(containers[..n]))
         == Bag(keep, stampOf, Joined(containers[..n - 1])) + Bag(keep, stampOf, containers[n - 1])
  {
    hide Joined, Filter, Entries;
    assert containers[..n] == containers[..n - 1] + [containers[n - 1]];
    JoinedMore(containers[..n - 1], containers[n - 1]);
    UnionConcat(c => multiset(Filter(keep, Entries(stampOf, c))), Joined(containers[..n - 1]), containers[n - 1]);
  }

  lemma {:induction false} GivenIsJoined(stampOf: Text -> Option<Time>, start: Option<Time>, end: Option<Time>,
                                         containers: seq<seq<Chunk>>, out: seq<MergeItem>, n: nat)
    requires n <= |containers|
    requires forall i :: 0 <= i < n ==>
               FromSource(out, i) == InRangeEntries(stampOf, start, end, Rest(containers[i], 0, 0))
    ensures GivenBag(out, n) == Bag(e => InRange(start, end, e), stampOf, Joined(containers[..n]))
  {
    hide FromSource, Rest, InRange, Filter, Parsed;
    var keep := e => InRange(start, end, e);
    if n > 0 {
      hide Bag, Joined;
      GivenIsJoined(stampOf, start, end, containers, out, n - 1);
      RestBag(keep, stampOf, containers[n - 1], 0);
      assert containers[n - 1][0..] == containers[n - 1];
      BagOfJoined(keep, stampOf, containers, n);
    }
  }

  /** What the merge promises of its output, for these containers. */
  ghost predicate Downloaded(stampOf: Text -> Option<Time>, req: Request, containers: seq<seq<Chunk>>,
                             out: seq<MergeItem>) {
    && (forall i :: 0 <= i < |containers| ==>
          FromSource(out, i)
          == InRangeEntries(stampOf, Bound(req.startTime), Bound(req.endTime), Rest(containers[i], 0, 0)))
    && forall k :: 0 <= k < |out| ==> out[k].source < |containers|
  }

  /** The download has exactly the lines the merged pages select from the same
      segments, however these were listed. */
  lemma DownloadSelectsTimeline(stampOf: Text -> Option<Time>, req: Request, containers: seq<seq<Chunk>>,
                                scan: seq<Chunk>, out: seq<MergeItem>)
    requires Downloaded(stampOf, req, containers, out)
    requires multiset(Joined(containers)) == multiset(scan)
    ensures multiset(EntriesOf(out)) == multiset(Timeline(AllEntries(stampOf, SegmentLines(scan)), req))
  {
    hide FromSource, Rest, InRange, SortBy, TimeLess, GivenBag, AllEntries, Entries, EntriesOf, SegmentLines;
    var keep := e => InRange(Bound(req.startTime), Bound(req.endTime), e);
    OutputBag(out, |containers|);
    GivenIsJoined(stampOf, Bound(req.startTime), Bound(req.endTime), containers, out, |containers|);
    assert containers[..|containers|] == containers;
    UnionPermutes(c => multiset(Filter(keep, Entries(stampOf, c))), Joined(containers), scan);
    ScanBag(keep, stampOf, scan);
    SortByMultiset(TimeLess, Filter(keep, AllEntries(stampOf, SegmentLines(scan))));
  }

  lemma OneArrangement(s: seq<Entry>, t: seq<Entry>)
    requires InTimeOrder(s) && InTimeOrder(t) && DistinctTimes(t) && multiset(s) == multiset(t)
    ensures s == t
  {
    TimeOrders();
    SortedUnique(TimeLess, t, s);
  }

  lemma AllBelow(s: seq<Entry>)
    requires Representable(s)
    ensures forall i :: 0 <= i < |s| ==> s[i].ts < TWO_63
  {
  }

  /** In time order, with distinct times and a first page that ends in a positive
      one, the download is exactly the pages one gets by following next tokens,
      one after the other. */
  lemma DownloadIsAllPages(stampOf: Text -> Option<Time>, req: Request, containers: seq<seq<Chunk>>,
                           scan: seq<Chunk>, out: seq<MergeItem>, fuel: nat)
    requires Downloaded(stampOf, req, containers, out) && InTimeOrder(EntriesOf(out))
    requires multiset(Joined(containers)) == multiset(scan)
    requires var timeline, p := Timeline(AllEntries(stampOf, SegmentLines(scan)), req), PageSize(req.pageSize);
             && DistinctTimes(timeline) && Representable(timeline) && |timeline| <= fuel
             && (|timeline| <= p || 0 < timeline[p - 1].ts)
    requires req.token == [] && !req.last
    ensures EntriesOf(out) == Joined(Collect(AllEntries(stampOf, SegmentLines(scan)), req, fuel))
  {
    hide Downloaded, Timeline, DistinctTimes, InTimeOrder, Representable, AllEntries, SegmentLines, EntriesOf, Joined,
         Collect, CoversForward;
    var all := AllEntries(stampOf, SegmentLines(scan));
    DownloadSelectsTimeline(stampOf, req, containers, scan, out);
    TimelineOrdered(all, req);
    OneArrangement(EntriesOf(out), Timeline(all, req));
    AllBelow(Timeline(all, req));
    NextTokensCover(all, req, fuel);
  }
}
