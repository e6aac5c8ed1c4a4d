/** What a whole search gives the client. */
module SearchResults {
  import opened Bytes
  import opened Seqs
  import opened SearchJobs
  import opened SearchPool

  /** One streamed match. */
  datatype Response = Response(target: Target, line: Text)

  function SearchOf(q: Query, jobs: seq<Segment>, requested: int): (z: Search)
    ensures |z.jobs| == |jobs|
  {
    Search(seq(|jobs|, j requires 0 <= j < |jobs| => jobs[j].lines), line => Hit(q, line), MaxResults(requested))
  }

  function Responses(jobs: seq<Segment>, found: seq<Found>): (r: seq<Response>)
    requires forall k :: 0 <= k < |found| ==> found[k].job < |jobs|
    ensures |r| == |found|
  {
    seq(|found|, k requires 0 <= k < |found| => Response(jobs[found[k].job].target, found[k].line))
  }

  function From(target: Target, lines: seq<Text>): seq<Response> {
    seq(|lines|, k requires 0 <= k < |lines| => Response(target, lines[k]))
  }

  /** What a full scan of one segment finds. */
  function HitBag(q: Query, s: Segment): multiset<Response> {
    multiset(From(s.target, Hits(q, s.lines)))
  }

  function FoundBag(jobs: seq<Segment>, found: seq<Found>, n: nat): multiset<Response>
    requires n <= |jobs|
  {
    if n == 0 then multiset{} else FoundBag(jobs, found, n - 1) + multiset(From(jobs[n - 1].target, Of(found, n - 1)))
  }

  lemma FromStep(target: Target, lines: seq<Text>, line: Text)
    ensures multiset(From(target, lines + [line])) == multiset(From(target, lines)) + multiset{Response(target, line)}
  {
    assert From(target, lines + [line]) == From(target, lines) + [Response(target, line)];
  }

  lemma FoundBagUnfold(jobs: seq<Segment>, found: seq<Found>, n: nat)
    requires n <= |jobs|
    ensures FoundBag(jobs, found, n)
         == if n == 0 then multiset{}
            else FoundBag(jobs, found, n - 1) + multiset(From(jobs[n - 1].target, Of(found, n - 1)))
  {
    hide Of, From;
  }

  lemma {:induction false} FoundBagStep(jobs: seq<Segment>, found: seq<Found>, x: Found, n: nat)
    requires n <= |jobs| && x.job < |jobs|
    ensures FoundBag(jobs, found + [x], n)
         == FoundBag(jobs, found, n) + if x.job < n then multiset{Response(jobs[x.job].target, x.line)} else multiset{}
  {
    hide Of, From, FoundBag;
    FoundBagUnfold(jobs, found, n);
    FoundBagUnfold(jobs, found + [x], n);
    if n > 0 {
      FoundBagStep(jobs, found, x, n - 1);
      OfStep(found, x, n - 1);
      var had, last := FoundBag(jobs, found, n - 1), multiset(From(jobs[n - 1].target, Of(found, n - 1)));
      var now := multiset(From(jobs[n - 1].target, Of(found + [x], n - 1)));
      if x.job < n {
        if x.job == n - 1 {
          FromStep(jobs[n - 1].target, Of(found, n - 1), x.line);
        }
        var more := multiset{Response(jobs[x.job].target, x.line)};
        BagStep(had, last, more, FoundBag(jobs, found + [x], n - 1), now);
      } else {
        assert now == last;
      }
    }
  }

  lemma {:induction false} FoundNothing(jobs: seq<Segment>, n: nat)
    requires n <= |jobs|
    ensures FoundBag(jobs, [], n) == multiset{}
  {
    if n > 0 {
      FoundNothing(jobs, n - 1);
    }
  }

  lemma {:induction false} ResponsesBag(jobs: seq<Segment>, found: seq<Found>)
    requires forall k :: 0 <= k < |found| ==> found[k].job < |jobs|
    ensures multiset(Responses(jobs, found)) == FoundBag(jobs, found, |jobs|)
  {
    if found == [] {
      FoundNothing(jobs, |jobs|);
    } else {
      var before, x := found[..|found| - 1], found[|found| - 1];
      assert found == before + [x];
      assert Responses(jobs, found) == Responses(jobs, before) + [Response(jobs[x.job].target, x.line)];
      ResponsesBag(jobs, before);
      FoundBagStep(jobs, before, x, |jobs|);
    }
  }

  lemma {:induction false} FoundIsHits(q: Query, jobs: seq<Segment>, found: seq<Found>, n: nat)
    requires n <= |jobs| && forall j :: 0 <= j < n ==> Of(found, j) == Hits(q, jobs[j].lines)
    ensures FoundBag(jobs, found, n) == Union(s => HitBag(q, s), jobs[..n])
  {
    hide Of, Hits, From;
    if n > 0 {
      FoundIsHits(q, jobs, found, n - 1);
      assert jobs[..n] == jobs[..n - 1] + [jobs[n - 1]];
      UnionConcat(s => HitBag(q, s), jobs[..n - 1], [jobs[n - 1]]);
      UnionOne(s => HitBag(q, s), jobs[n - 1]);
    }
  }

  lemma NoHitsNoBag(q: Query, s: Segment)
    ensures HitBag(q, s) == multiset{} <==> Hits(q, s.lines) == []
  {
    hide Hits;
    assert |HitBag(q, s)| == |From(s.target, Hits(q, s.lines))|;
  }

  /** Whether pruning goes unnoticed: no segment left out has a matching line
      without a time of its own that the bounds let through. */
  ghost predicate PrunedSafely(q: Query, listed: seq<Segment>) {
    forall k :: 0 <= k < |listed| && !InWindow(q.start, q.end, listed[k]) ==> !UntimedMatch(q, listed[k])
  }

  /** The premise on the segments left out: timed lines lie in their own day. */
  ghost predicate TimedInDays(q: Query, listed: seq<Segment>) {
    forall k :: 0 <= k < |listed| && !InWindow(q.start, q.end, listed[k]) ==> TimedInDay(q.stampOf, listed[k])
  }

  lemma PruningLosesNothingExactly(q: Query, listed: seq<Segment>)
    requires TimedInDays(q, listed)
    ensures Union(s => HitBag(q, s), Filter(s => InWindow(q.start, q.end, s), listed))
              == Union(s => HitBag(q, s), listed)
       <==> PrunedSafely(q, listed)
  {
    hide InWindow, Hits, HitBag, Union, Filter, TimedInDay, UntimedMatch;
    UnionSplits(s => HitBag(q, s), s => InWindow(q.start, q.end, s), listed);
    forall k | 0 <= k < |listed| && !InWindow(q.start, q.end, listed[k])
      ensures HitBag(q, listed[k]) == multiset{} <==> !UntimedMatch(q, listed[k])
    {
      PrunedHasNoHitsExactly(q, listed[k]);
      NoHitsNoBag(q, listed[k]);
    }
  }

  /** A search that ends untruncated, not cancelled and with every file read,
      has streamed exactly the matches a scan of every listed segment finds,
      whatever the schedule, if and only if no segment that was pruned has a
      matching line without a time of its own that the bounds let through. */
  lemma SearchIsComplete(q: Query, newestFirst: bool, listed: seq<Segment>, jobs: seq<Segment>, requested: int,
                         workers: nat, steps: seq<Step>, s: Pool)
    requires TimedInDays(q, listed) && Queued(newestFirst, q, listed, jobs)
    requires workers >= 1
    requires Leads(SearchOf(q, jobs, requested), Start(SearchOf(q, jobs, requested), workers), steps, s)
    requires s.consumer == Finished(false) && !s.cancelled && s.vanished == {}
    ensures forall k :: 0 <= k < |s.sent| ==> s.sent[k].job < |jobs|
    ensures multiset(Responses(jobs, s.sent)) == Union(g => HitBag(q, g), listed) <==> PrunedSafely(q, listed)
  {
    hide Leads, TimedInDays, PrunedSafely, InWindow, Hit, Of, Filter, JobLess;
    var z := SearchOf(q, jobs, requested);
    SentIsSafe(z, workers, steps, s);
    EndedIsComplete(z, workers, steps, s);
    ResponsesBag(jobs, s.sent);
    FoundIsHits(q, jobs, s.sent, |jobs|);
    assert jobs[..|jobs|] == jobs;
    UnionPermutes(g => HitBag(q, g), jobs, Filter(g => InWindow(q.start, q.end, g), listed));
    PruningLosesNothingExactly(q, listed);
  }

  /** Truncation drops the less relevant: when a match of some segment has been
      streamed, every segment that comes before it in scan order, by date, pod
      and container, has already been handed to a worker. */
  lemma EarlierSegmentsStarted(q: Query, newestFirst: bool, listed: seq<Segment>, jobs: seq<Segment>, requested: int,
                               workers: nat,
                               steps: seq<Step>, s: Pool, k: nat, i: nat)
    requires Queued(newestFirst, q, listed, jobs)
    requires workers >= 1
    requires Leads(SearchOf(q, jobs, requested), Start(SearchOf(q, jobs, requested), workers), steps, s)
    requires k < |s.sent| && i < |jobs|
    ensures s.sent[k].job < |jobs|
    ensures JobLess(newestFirst, jobs[i], jobs[s.sent[k].job]) ==> i < s.next
  {
    hide Leads, JobLess;
    SentIsSafe(SearchOf(q, jobs, requested), workers, steps, s);
    NotBeforeItself(newestFirst, jobs[i]);
  }

  lemma NotBeforeItself(newestFirst: bool, s: Segment)
    ensures !JobLess(newestFirst, s, s)
  {
    TextLessTotal(s.target.container, s.target.container);
  }
}
