/** Which segments a search scans, and what it looks for in a line
    (api/search_service.go). */
module SearchJobs {
  import opened Bytes
  import opened Seqs
  import opened Ordering
  import opened Writer
  import opened MergedPaging
  import Collector

  datatype Target = Target(namespace: Text, pod: Text, container: Text)

  /** A listed file: the date its name gives, if it is a segment's, and its lines. */
  datatype Segment = Segment(target: Target, date: Option<Time>, lines: seq<Text>)

  /** A search request: the matcher is the compiled query. */
  datatype Query = Query(stampOf: Text -> Option<Time>, matches: Text -> bool, start: Option<Time>, end: Option<Time>)

  function MaxResults(requested: int): (m: nat)
    ensures m == if requested <= 0 then 1000 else if requested > 5000 then 5000 else requested
  {
    Clamped(requested, 1000, 5000)
  }

  predicate InWindow(start: Option<Time>, end: Option<Time>, s: Segment) {
    && s.date.Some?
    && (start.Some? ==> TruncateToDay(start.value) <= s.date.value)
    && (end.Some? ==> s.date.value <= end.value)
  }

  /** searchJobsFor, over each target's segments. */
  method SearchJobsFor(targets: seq<seq<Segment>>, start: Option<Time>, end: Option<Time>) returns (jobs: seq<Segment>)
    ensures jobs == Filter(s => InWindow(start, end, s), Joined(targets))
  {
    hide InWindow, Filter;
    ghost var keep := s => InWindow(start, end, s);
    jobs := [];
    FilterEmpty(keep);
    for t := 0 to |targets|
      invariant jobs == Filter(keep, Joined(targets[..t]))
    {
      assert targets[..t + 1] == targets[..t] + [targets[t]];
      JoinedMore(targets[..t], targets[t]);
      var added := TargetJobs(targets[t], start, end);
      FilterConcat(keep, Joined(targets[..t]), targets[t]);
      jobs := jobs + added;
    }
    assert targets[..|targets|] == targets;
  }

  method TargetJobs(segments: seq<Segment>, start: Option<Time>, end: Option<Time>) returns (jobs: seq<Segment>)
    ensures jobs == Filter(s => InWindow(start, end, s), segments)
  {
    hide InWindow, Filter;
    ghost var keep := s => InWindow(start, end, s);
    jobs := [];
    FilterEmpty(keep);
    for k := 0 to |segments|
      invariant jobs == Filter(keep, segments[..k])
    {
      assert segments[..k + 1] == segments[..k] + [segments[k]];
      FilterStep(keep, segments[..k], segments[k]);
      if InWindow(start, end, segments[k]) {
        jobs := jobs + [segments[k]];
      }
    }
    assert segments[..|segments|] == segments;
  }

  // ----- The message of a stored line -----

  /** The first place of "] ", or -1. */
  function MessageMark(line: Text): (i: int)
    ensures i == -1 || 0 <= i <= |line| - 2
  {
    if |line| < 2 then -1
    else if line[0] == ']' as int && line[1] == ' ' as int then 0
    else
      var i := MessageMark(line[1..]);
      if i < 0 then -1 else i + 1
  }

  /** storedMessage */
  function StoredMessage(line: Text): Text {
    var i := MessageMark(line);
    if i >= 0 then line[i + 2..] else line
  }

  /** A stored line's message is found again when nothing before it has the
      mark, whatever the message itself holds. */
  lemma {:induction false} MessageFound(prefix: Text, message: Text)
    requires MessageMark(prefix + [']' as int]) < 0
    ensures MessageMark(prefix + [']' as int, ' ' as int] + message) == |prefix|
    ensures StoredMessage(prefix + [']' as int, ' ' as int] + message) == message
  {
    var line := prefix + [']' as int, ' ' as int] + message;
    if prefix != [] {
      assert (prefix + [']' as int])[1..] == prefix[1..] + [']' as int];
      assert line[1..] == prefix[1..] + [']' as int, ' ' as int] + message;
      MessageFound(prefix[1..], message);
    }
  }

  /** The message is what follows the first "] ", or the whole line. */
  lemma {:induction false} MessageSpelledOut(line: Text) returns (i: nat)
    ensures i <= |line|
    ensures forall k :: 0 <= k < i && k + 1 < |line| ==> !(line[k] == 0x5D && line[k + 1] == 0x20)
    ensures i + 1 < |line| ==> line[i] == 0x5D && line[i + 1] == 0x20
    ensures StoredMessage(line) == if i + 1 < |line| then line[i + 2..] else line
  {
    if |line| < 2 || (line[0] == 0x5D && line[1] == 0x20) {
      i := 0;
    } else {
      i := MessageSpelledOut(line[1..]);
      i := i + 1;
      assert i + 1 < |line| ==> line[1..][i + 1..] == line[i + 2..];
    }
  }

  /** The message of a line the collector wrote is the content it was given, when
      there is no bracket in the names and the time before it. */
  lemma StoredLineMessage(stamp: Text, namespace: Text, pod: Text, container: Text, content: Text)
    requires 0x5D !in stamp && 0x5D !in namespace && 0x5D !in pod && 0x5D !in container
    ensures StoredMessage(Collector.StoredLine(stamp, namespace, pod, container, content)) == content
  {
    var head := stamp + [0x20, 0x5B] + namespace + [0x2F] + pod + [0x2F] + container;
    NoMark(head);
    MessageFound(head, content);
    assert Collector.StoredLine(stamp, namespace, pod, container, content)
        == head + [']' as int, ' ' as int] + content;
  }

  lemma {:induction false} NoMark(head: Text)
    requires 0x5D !in head
    ensures MessageMark(head + [0x5D]) == -1
  {
    if head != [] {
      assert (head + [0x5D])[1..] == head[1..] + [0x5D];
      assert head[0] in head;
      NoMark(head[1..]);
    }
  }

  predicate Hit(q: Query, line: Text) {
    InRange(q.start, q.end, Entry(ParseTime(q.stampOf, line), line)) && q.matches(StoredMessage(line))
  }

  function Hits(q: Query, lines: seq<Text>): seq<Text> {
    Filter(line => Hit(q, line), lines)
  }

  /** A hit is a line whose time, or January 1 of year 1 if it begins with none, is
      in range and whose message matches. */
  lemma HitSpelledOut(q: Query, lines: seq<Text>)
    ensures Hits(q, lines)
         == Filter(line => var t := if q.stampOf(line).Some? then q.stampOf(line).value
                                    else -62_135_596_800 * 1_000_000_000;
                           && (q.start.None? || q.start.value <= t) && (q.end.None? || t <= q.end.value)
                           && q.matches(StoredMessage(line)), lines)
  {
    hide Filter, StoredMessage;
    FilterSame(line => Hit(q, line),
               line => var t := if q.stampOf(line).Some? then q.stampOf(line).value
                                else -62_135_596_800 * 1_000_000_000;
                       && (q.start.None? || q.start.value <= t) && (q.end.None? || t <= q.end.value)
                       && q.matches(StoredMessage(line)), lines);
  }

  // ----- Pruning by day -----

  /** Every line with a time of its own lies in the segment of that UTC day. */
  ghost predicate TimedInDay(stampOf: Text -> Option<Time>, s: Segment) {
    && s.date.Some?
    && forall line :: line in s.lines && stampOf(line).Some? ==> TruncateToDay(stampOf(line).value) == s.date.value
  }

  /** The bounds let a line without a time of its own through: in practice, that
      there is no start bound. */
  predicate UntimedInRange(q: Query) {
    (q.start.Some? ==> q.start.value <= ZERO_TIME) && (q.end.Some? ==> ZERO_TIME <= q.end.value)
  }

  /** The segment has such a line, and it matches. */
  ghost predicate UntimedMatch(q: Query, s: Segment) {
    UntimedInRange(q) && exists line :: line in s.lines && q.stampOf(line).None? && q.matches(StoredMessage(line))
  }

  /** Day pruning drops a match if and only if the segment has a matching line
      without a time of its own, and there is no bound to keep such lines out. */
  lemma PrunedHasNoHitsExactly(q: Query, s: Segment)
    requires TimedInDay(q.stampOf, s) && !InWindow(q.start, q.end, s)
    ensures Hits(q, s.lines) == [] <==> !UntimedMatch(q, s)
  {
    hide StoredMessage;
    var hit := line => Hit(q, line);
    forall line | line in s.lines && q.stampOf(line).Some?
      ensures !Hit(q, line)
    {
      TimedPruned(q, s, line);
    }
    if UntimedMatch(q, s) {
      var line :| line in s.lines && q.stampOf(line).None? && q.matches(StoredMessage(line));
      FilterKeepsMembers(hit, s.lines);
      assert line in Hits(q, s.lines);
    } else {
      forall line | line in s.lines
        ensures !Hit(q, line)
      {
      }
      FilterNone(hit, s.lines);
    }
  }

  lemma TimedPruned(q: Query, s: Segment, line: Text)
    requires TimedInDay(q.stampOf, s) && !InWindow(q.start, q.end, s) && line in s.lines && q.stampOf(line).Some?
    ensures !Hit(q, line)
  {
    hide StoredMessage;
    var t := q.stampOf(line).value;
    DayStarts(t);
    if q.start.Some? && q.start.value <= t {
      DaysInOrder(q.start.value, t);
    }
  }

  /** A search bounded at one end only, and a segment it prunes with a matching
      line that it would have shown. */
  lemma UntimedLineMissed() returns (q: Query, s: Segment)
    ensures q.start == None && TimedInDay(q.stampOf, s) && !InWindow(q.start, q.end, s) && Hits(q, s.lines) != []
  {
    q := Query(_ => None, _ => true, None, Some(0));
    s := Segment(Target([], [], []), Some(DAY), [[]]);
    assert [] in s.lines;
    PrunedHasNoHitsExactly(q, s);
  }

  lemma DayStarts(t: Time)
    ensures TruncateToDay(t) <= t < TruncateToDay(t) + DAY
  {
  }

  lemma DaysInOrder(t: Time, u: Time)
    requires t <= u
    ensures DayOf(t) <= DayOf(u) && TruncateToDay(t) <= TruncateToDay(u)
  {
  }

  /** One container's segments: whole days, oldest first. */
  ghost predicate Dated(segments: seq<Segment>) {
    && (forall i :: 0 <= i < |segments| ==> segments[i].date.Some? && segments[i].date.value % DAY == 0)
    && forall i, j :: 0 <= i < j < |segments| ==> segments[i].date.value < segments[j].date.value
  }

  /** A bounded search reads at most one segment a container for each day its
      bounds touch: two for any 24 hours, whatever history is kept. */
  lemma WindowTouchesFewDays(segments: seq<Segment>, start: Time, end: Time)
    requires Dated(segments) && start <= end
    ensures |Filter(s => InWindow(Some(start), Some(end), s), segments)| <= DayOf(end) - DayOf(start) + 1
    ensures end - start <= DAY ==> |Filter(s => InWindow(Some(start), Some(end), s), segments)| <= 2
  {
    hide Dated, Filter, InWindow, NoneAfter, DayOf;
    NoneAfterEnd(segments, start, end);
    KeptPerDay(segments, start, end, DayOf(end));
    DaysInOrder(start, end);
    if end - start <= DAY {
      ADayTouchesTwo(start, end);
    }
  }

  lemma ADayTouchesTwo(start: Time, end: Time)
    requires end - start <= DAY
    ensures DayOf(end) <= DayOf(start) + 1
  {
  }

  lemma NoneAfterEnd(segments: seq<Segment>, start: Time, end: Time)
    ensures NoneAfter(segments, start, end, DayOf(end))
  {
    hide DayOf;
    forall k | 0 <= k < |segments| && InWindow(Some(start), Some(end), segments[k])
      ensures DayOf(segments[k].date.value) <= DayOf(end)
    {
      DaysInOrder(segments[k].date.value, end);
    }
  }

  /** The kept segments' days do not pass `last`. */
  ghost predicate NoneAfter(segments: seq<Segment>, start: Time, end: Time, last: int) {
    forall k :: 0 <= k < |segments| && InWindow(Some(start), Some(end), segments[k]) ==>
                  DayOf(segments[k].date.value) <= last
  }

  lemma DayBefore(segments: seq<Segment>, start: Time, end: Time, last: int)
    requires Dated(segments) && NoneAfter(segments, start, end, last) && segments != []
    ensures segments[|segments| - 1].date.Some?
    ensures var n := |segments| - 1;
            && Dated(segments[..n]) && NoneAfter(segments[..n], start, end, last)
            && (InWindow(Some(start), Some(end), segments[n]) ==>
                  var day := DayOf(segments[n].date.value);
                  DayOf(start) <= day <= last && NoneAfter(segments[..n], start, end, day - 1))
  {
    var n := |segments| - 1;
    if InWindow(Some(start), Some(end), segments[n]) {
      var date := segments[n].date.value;
      StartedBy(start, date);
      forall k | 0 <= k < n
        ensures DayOf(segments[k].date.value) <= DayOf(date) - 1
      {
        WholeDays(segments[k].date.value, date);
      }
    }
  }

  lemma StartedBy(start: Time, date: Time)
    requires TruncateToDay(start) <= date
    ensures DayOf(start) <= DayOf(date)
  {
  }

  lemma WholeDays(a: Time, b: Time)
    requires a % DAY == 0 && b % DAY == 0 && a < b
    ensures DayOf(a) < DayOf(b)
  {
  }

  lemma {:induction false} KeptPerDay(segments: seq<Segment>, start: Time, end: Time, last: int)
    requires Dated(segments) && NoneAfter(segments, start, end, last)
    ensures |Filter(s => InWindow(Some(start), Some(end), s), segments)|
         <= if last < DayOf(start) then 0 else last - DayOf(start) + 1
  {
    hide Dated, NoneAfter, InWindow;
    if segments != [] {
      var n := |segments| - 1;
      DayBefore(segments, start, end, last);
      KeptPerDay(segments[..n], start, end,
                 if InWindow(Some(start), Some(end), segments[n]) then DayOf(segments[n].date.value) - 1 else last);
    }
  }

  // ----- The order segments are scanned in -----

  predicate JobLess(newestFirst: bool, a: Segment, b: Segment) {
    if OrZero(a.date) != OrZero(b.date) then
      if newestFirst then OrZero(b.date) < OrZero(a.date) else OrZero(a.date) < OrZero(b.date)
    else if a.target.pod != b.target.pod then TextLess(a.target.pod, b.target.pod)
    else TextLess(a.target.container, b.target.container)
  }

  lemma TextCoherent(a: Text, b: Text, c: Text)
    ensures Coherent(TextLess, a, b, c)
  {
    hide TextLess;
    TextLessTotal(a, b);
    TextLessTotal(b, c);
    TextLessTotal(a, c);
    if TextLess(a, b) && TextLess(b, c) {
      TextLessTransitive(a, b, c);
    }
    if TextLess(c, b) && TextLess(b, a) {
      TextLessTransitive(c, b, a);
    }
  }

  lemma JobOrder(newestFirst: bool)
    ensures WeakOrder((a, b) => JobLess(newestFirst, a, b))
  {
    hide TextLess;
    var less := (a: Segment, b: Segment) => JobLess(newestFirst, a, b);
    forall a, b, c
      ensures Coherent(less, a, b, c)
    {
      TextCoherent(a.target.pod, b.target.pod, c.target.pod);
      TextCoherent(a.target.container, b.target.container, c.target.container);
      TextLessTotal(a.target.pod, b.target.pod);
      TextLessTotal(b.target.pod, c.target.pod);
      TextLessTotal(a.target.pod, c.target.pod);
    }
  }

  /** The queue of a search: the segments in its window, in scan order. */
  ghost predicate Queued(newestFirst: bool, q: Query, listed: seq<Segment>, jobs: seq<Segment>) {
    && multiset(jobs) == multiset(Filter(s => InWindow(q.start, q.end, s), listed))
    && forall i, j :: 0 <= i < j < |jobs| ==> !JobLess(newestFirst, jobs[j], jobs[i])
  }

  /** The queue, spelled out: the listed segments from the day of the start bound
      to the end bound, each as often as listed, by day in the direction asked for,
      then by pod and container. */
  lemma QueuedSpelledOut(newestFirst: bool, q: Query, listed: seq<Segment>, jobs: seq<Segment>)
    requires Queued(newestFirst, q, listed, jobs)
    ensures forall s :: multiset(jobs)[s]
              == if && s.date.Some?
                    && (q.start.None? || q.start.value - q.start.value % 86_400_000_000_000 <= s.date.value)
                    && (q.end.None? || s.date.value <= q.end.value)
                 then multiset(listed)[s] else 0
    ensures forall i, j :: 0 <= i < j < |jobs| ==>
              var a, b := jobs[i], jobs[j];
              && a.date.Some? && b.date.Some?
              && (if newestFirst then a.date.value >= b.date.value else a.date.value <= b.date.value)
              && (a.date == b.date ==> !TextLess(b.target.pod, a.target.pod))
              && (a.date == b.date && a.target.pod == b.target.pod ==>
                    !TextLess(b.target.container, a.target.container))
  {
    hide Filter, TextLess;
    forall s: Segment
      ensures multiset(jobs)[s] == if InWindow(q.start, q.end, s) then multiset(listed)[s] else 0
    {
      FilterCounts(x => InWindow(q.start, q.end, x), listed, s);
    }
    forall i | 0 <= i < |jobs|
      ensures jobs[i].date.Some?
    {
      assert jobs[i] in multiset(jobs);
    }
    forall i, j | 0 <= i < j < |jobs|
      ensures !JobLess(newestFirst, jobs[j], jobs[i]) && jobs[i].date.Some? && jobs[j].date.Some?
      ensures !TextLess(jobs[i].target.pod, jobs[i].target.pod)
    {
      TextLessTotal(jobs[i].target.pod, jobs[i].target.pod);
    }
    if q.start.Some? {
      DaySpelledOut(q.start.value);
    }
  }

  /** The order is one a sort can follow: the sorted window is a queue. */
  lemma SortedWindowIsQueued(newestFirst: bool, q: Query, listed: seq<Segment>)
    ensures Queued(newestFirst, q, listed,
                   SortBy((a, b) => JobLess(newestFirst, a, b), Filter(s => InWindow(q.start, q.end, s), listed)))
  {
    hide JobLess, InWindow, Filter, SortBy;
    var window := Filter(s => InWindow(q.start, q.end, s), listed);
    var less := (a: Segment, b: Segment) => JobLess(newestFirst, a, b);
    JobOrder(newestFirst);
    SortByMultiset(less, window);
    SortBySorted(less, window);
    var jobs := SortBy(less, window);
    forall i, j | 0 <= i < j < |jobs|
      ensures !JobLess(newestFirst, jobs[j], jobs[i])
    {
      assert !less(jobs[j], jobs[i]);
    }
  }
}
