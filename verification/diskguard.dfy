/** The disk guard (storage/diskguard.go): which segments one check deletes. */
module DiskGuard {
  import opened Bytes
  import opened Seqs
  import opened Ordering
  import opened Writer

  /** agedSegment */
  datatype Aged = Aged(path: Path, date: Time)

  predicate Older(a: Aged, b: Aged) {
    a.date < b.date
  }

  predicate IsSegment(dateOf: Text -> Option<Time>, p: Path) {
    dateOf(p.segment).Some?
  }

  function Ages(dateOf: Text -> Option<Time>, paths: seq<Path>): (r: seq<Aged>)
    ensures |r| == |paths|
  {
    seq(|paths|, i requires 0 <= i < |paths| => Aged(paths[i], OrZero(dateOf(paths[i].segment))))
  }

  /** allSegmentsByAge over the files of every container. */
  function ByAge(dateOf: Text -> Option<Time>, listed: seq<Path>): seq<Aged> {
    SortBy(Older, Ages(dateOf, Filter(p => IsSegment(dateOf, p), listed)))
  }

  ghost predicate Distinct(listed: seq<Path>) {
    forall i, j :: 0 <= i < j < |listed| ==> listed[i] != listed[j]
  }

  /** Oldest first, each segment once, and just those listed. */
  ghost predicate Ranked(dateOf: Text -> Option<Time>, listed: seq<Path>, segments: seq<Aged>) {
    && (forall i, j :: 0 <= i < j < |segments| ==>
          segments[i].date <= segments[j].date && segments[i].path != segments[j].path)
    && (forall i :: 0 <= i < |segments| ==>
          segments[i].path in listed && dateOf(segments[i].path.segment) == Some(segments[i].date))
    && forall p :: p in listed && dateOf(p.segment).Some? ==> Aged(p, dateOf(p.segment).value) in segments
  }

  lemma {:induction false} FilterDistinct(keep: Path -> bool, listed: seq<Path>)
    requires Distinct(listed)
    ensures Distinct(Filter(keep, listed))
  {
    if listed != [] {
      FilterDistinct(keep, listed[..|listed| - 1]);
    }
  }

  lemma OnceEach(s: seq<Aged>, t: seq<Aged>)
    requires multiset(s) == multiset(t)
    requires forall i, j :: 0 <= i < j < |s| ==> s[i].path != s[j].path
    ensures forall i, j :: 0 <= i < j < |t| ==> t[i].path != t[j].path
  {
    SameMembers(s, t);
    forall i, j | 0 <= i < j < |t|
      ensures t[i].path != t[j].path
    {
      if t[i].path == t[j].path {
        var a := PlaceOf(s, t[i]);
        var b := PlaceOf(s, t[j]);
        TwicePlaced(t, i, j);
        OncePlaced(s, a);
      }
    }
  }

  lemma TwicePlaced(t: seq<Aged>, i: nat, j: nat)
    requires i < j < |t|
    ensures t[i] == t[j] ==> multiset(t)[t[i]] >= 2
  {
    assert t == t[..i] + [t[i]] + t[i + 1..j] + [t[j]] + t[j + 1..];
  }

  lemma OncePlaced(s: seq<Aged>, a: nat)
    requires a < |s| && forall i, j :: 0 <= i < j < |s| ==> s[i].path != s[j].path
    ensures multiset(s)[s[a]] == 1
  {
    assert s == s[..a] + [s[a]] + s[a + 1..];
    assert s[a] !in s[..a] && s[a] !in s[a + 1..];
  }

  lemma AgesOf(dateOf: Text -> Option<Time>, listed: seq<Path>, paths: seq<Path>)
    requires Distinct(paths)
    requires forall p :: p in paths <==> p in listed && IsSegment(dateOf, p)
    ensures var ages := Ages(dateOf, paths);
            && (forall i, j :: 0 <= i < j < |ages| ==> ages[i].path != ages[j].path)
            && (forall s :: s in ages ==> s.path in listed && dateOf(s.path.segment) == Some(s.date))
            && forall p :: p in listed && dateOf(p.segment).Some? ==> Aged(p, dateOf(p.segment).value) in ages
  {
    var ages := Ages(dateOf, paths);
    forall p | p in listed && dateOf(p.segment).Some?
      ensures Aged(p, dateOf(p.segment).value) in ages
    {
      var k :| 0 <= k < |paths| && paths[k] == p;
      assert ages[k] in ages;
    }
  }

  lemma OlderOrders()
    ensures WeakOrder(Older)
  {
    forall a, b, c
      ensures Coherent(Older, a, b, c)
    {
    }
  }

  /** allSegmentsByAge lists every segment once, oldest first. */
  lemma ByAgeIsRanked(dateOf: Text -> Option<Time>, listed: seq<Path>)
    requires Distinct(listed)
    ensures Ranked(dateOf, listed, ByAge(dateOf, listed))
  {
    var keep := p => IsSegment(dateOf, p);
    var paths := Filter(keep, listed);
    FilterDistinct(keep, listed);
    FilterKeepsMembers(keep, listed);
    hide Filter, SortBy, IsSegment, OrZero, Distinct, Ages, WeakOrder;
    var ages := Ages(dateOf, paths);
    AgesOf(dateOf, listed, paths);
    OlderOrders();
    SortBySorted(Older, ages);
    SortByMultiset(Older, ages);
    SameMembers(ages, SortBy(Older, ages));
    OnceEach(ages, SortBy(Older, ages));
    RankedFrom(dateOf, listed, ages, SortBy(Older, ages));
  }

  lemma RankedFrom(dateOf: Text -> Option<Time>, listed: seq<Path>, ages: seq<Aged>, segments: seq<Aged>)
    requires Sorted(Older, segments) && forall s :: s in ages <==> s in segments
    requires forall i, j :: 0 <= i < j < |segments| ==> segments[i].path != segments[j].path
    requires forall s :: s in ages ==> s.path in listed && dateOf(s.path.segment) == Some(s.date)
    requires forall p :: p in listed && dateOf(p.segment).Some? ==> Aged(p, dateOf(p.segment).value) in ages
    ensures Ranked(dateOf, listed, segments)
  {
    assert forall i :: 0 <= i < |segments| ==> segments[i] in segments;
    forall i, j | 0 <= i < j < |segments|
      ensures segments[i].date <= segments[j].date
    {
      assert !Older(segments[j], segments[i]);
    }
  }

  // ----- One check -----

  /** What the guard is told: the answer to each reading of disk usage, and
      which files can be removed. */
  datatype World = World(usage: nat -> Option<int>, removeOk: Path -> bool, open: set<Path>)
  {
    predicate Removable(s: Aged) {
      s.path !in open && removeOk(s.path)
    }

    /** The `k`th reading came, and was at or above the mark. */
    predicate AtLeast(k: nat, mark: int) {
      usage(k).Some? && mark <= usage(k).value
    }
  }

  /** The check went through `segments[..stop]`, oldest first, and deleted just
      the removable ones, `gone`, each after a reading at or above the low
      mark; it stopped short only when a reading fell below it or failed. */
  ghost predicate Guarded(w: World, low: int, segments: seq<Aged>, stop: nat, gone: seq<Aged>) {
    && stop <= |segments|
    && gone == Filter(s => w.Removable(s), segments[..stop])
    && (forall k :: 0 <= k < |gone| ==> w.AtLeast(k, low))
    && (stop < |segments| ==> !w.AtLeast(|gone|, low))
  }

  function Without(files: Files, gone: seq<Aged>): (r: Files)
    ensures forall p :: p in r <==> p in files && forall s :: s in gone ==> s.path != p
    ensures forall p :: p in r ==> r[p] == files[p]
  {
    map p | p in files && (forall s :: s in gone ==> s.path != p) :: files[p]
  }

  function SkippedOpen(w: World, segments: seq<Aged>, stop: nat): nat
    requires stop <= |segments|
  {
    |Filter((s: Aged) => s.path in w.open, segments[..stop])|
  }

  /** Guarded, short of how the loop ends. */
  ghost predicate SoFar(w: World, low: int, segments: seq<Aged>, i: nat, gone: seq<Aged>) {
    && i <= |segments|
    && gone == Filter(s => w.Removable(s), segments[..i])
    && forall k :: 0 <= k < |gone| ==> w.AtLeast(k, low)
  }

  lemma SoFarStarts(w: World, low: int, segments: seq<Aged>)
    ensures SoFar(w, low, segments, 0, []) && SkippedOpen(w, segments, 0) == 0
  {
    FilterEmpty(s => w.Removable(s));
    FilterEmpty((s: Aged) => s.path in w.open);
    assert segments[..0] == [];
  }

  lemma SoFarStep(w: World, low: int, segments: seq<Aged>, i: nat, gone: seq<Aged>)
    requires SoFar(w, low, segments, i, gone) && i < |segments|
    ensures !w.Removable(segments[i]) ==> SoFar(w, low, segments, i + 1, gone)
    ensures w.Removable(segments[i]) && w.AtLeast(|gone|, low) ==> SoFar(w, low, segments, i + 1, gone + [segments[i]])
    ensures SkippedOpen(w, segments, i + 1) == SkippedOpen(w, segments, i) + if segments[i].path in w.open then 1 else 0
  {
    hide Filter;
    assert segments[..i + 1] == segments[..i] + [segments[i]];
    FilterStep(s => w.Removable(s), segments[..i], segments[i]);
    FilterStep((s: Aged) => s.path in w.open, segments[..i], segments[i]);
  }

  /** The loop of check: delete closed segments, oldest first, until a reading
      falls below the low mark. */
  method DeleteOldest(store: LogStore, w: World, low: int, segments: seq<Aged>, usedPercent: int)
    returns (deleted: nat, skippedOpen: nat, ghost stop: nat, ghost gone: seq<Aged>)
    requires w.open == store.openSegments && w.usage(0) == Some(usedPercent)
    modifies store`files
    ensures store.files == Without(old(store.files), gone) && deleted == |gone|
    ensures Guarded(w, low, segments, stop, gone) && skippedOpen == SkippedOpen(w, segments, stop)
  {
    hide Without, SoFar, SkippedOpen;
    ghost var files := store.files;
    var used := usedPercent;
    deleted, skippedOpen, stop, gone := 0, 0, 0, [];
    WithoutNothing(files);
    SoFarStarts(w, low, segments);
    for i := 0 to |segments|
      invariant stop == i && SoFar(w, low, segments, i, gone) && skippedOpen == SkippedOpen(w, segments, i)
      invariant w.usage(|gone|) == Some(used)
      invariant store.files == Without(files, gone) && deleted == |gone|
    {
      if used < low {
        SoFarEnds(w, low, segments, i, gone);
        return;
      }
      var seg := segments[i];
      SoFarStep(w, low, segments, i, gone);
      stop := i + 1;
      if seg.path in store.openSegments {
        skippedOpen := skippedOpen + 1;
        continue;
      }
      if !w.removeOk(seg.path) {
        continue;
      }
      WithoutOneMore(files, gone, seg);
      store.files := store.files - {seg.path};
      deleted := deleted + 1;
      gone := gone + [seg];
      var reading := w.usage(deleted);
      if reading.None? {
        SoFarEnds(w, low, segments, stop, gone);
        return;
      }
      used := reading.value;
    }
    SoFarEnds(w, low, segments, stop, gone);
  }

  lemma SoFarEnds(w: World, low: int, segments: seq<Aged>, i: nat, gone: seq<Aged>)
    requires SoFar(w, low, segments, i, gone) && (i < |segments| ==> !w.AtLeast(|gone|, low))
    ensures Guarded(w, low, segments, i, gone)
  {
  }

  /** check */
  method Check(store: LogStore, w: World, high: int, low: int, listed: Option<seq<Path>>, dateOf: Text -> Option<Time>)
    returns (deleted: nat, skippedOpen: nat, ghost stop: nat, ghost gone: seq<Aged>)
    requires w.open == store.openSegments
    modifies store`files
    ensures store.files == Without(old(store.files), gone) && deleted == |gone|
    ensures !w.AtLeast(0, high) || listed.None? ==> gone == []
    ensures w.AtLeast(0, high) && listed.Some? ==>
              && Guarded(w, low, ByAge(dateOf, listed.value), stop, gone)
              && skippedOpen == SkippedOpen(w, ByAge(dateOf, listed.value), stop)
  {
    hide Without, Guarded, SkippedOpen, ByAge;
    var usedPercent := w.usage(0);
    if usedPercent.None? || usedPercent.value < high || listed.None? {
      WithoutNothing(store.files);
      return 0, 0, 0, [];
    }
    deleted, skippedOpen, stop, gone := DeleteOldest(store, w, low, ByAge(dateOf, listed.value), usedPercent.value);
  }

  lemma WithoutNothing(files: Files)
    ensures Without(files, []) == files
  {
  }

  lemma WithoutOneMore(files: Files, gone: seq<Aged>, s: Aged)
    ensures Without(files, gone + [s]) == Without(files, gone) - {s.path}
  {
  }

  // ----- What that means -----

  /** A minimal, oldest-first deletion: an open segment is never deleted; no
      surviving segment that could have been deleted is older than a deleted
      one; each deletion followed a reading at or above the low mark; and if
      the last reading is still at or above it, every closed segment that could
      be removed is gone. */
  lemma OldestGoFirst(w: World, low: int, dateOf: Text -> Option<Time>, listed: seq<Path>, stop: nat, gone: seq<Aged>)
    requires Distinct(listed) && Guarded(w, low, ByAge(dateOf, listed), stop, gone)
    ensures forall s :: s in gone ==>
              s.path in listed && s.path !in w.open && w.removeOk(s.path) && dateOf(s.path.segment) == Some(s.date)
    ensures forall k :: 0 <= k < |gone| ==> w.usage(k).Some? && low <= w.usage(k).value
    ensures forall s, p :: (s in gone && p in listed && dateOf(p.segment).Some? && p !in w.open && w.removeOk(p)
                            && dateOf(p.segment).value < s.date) ==> Aged(p, dateOf(p.segment).value) in gone
    ensures w.usage(|gone|).Some? && low <= w.usage(|gone|).value ==>
              forall p :: p in listed && dateOf(p.segment).Some? && p !in w.open && w.removeOk(p) ==>
                            Aged(p, dateOf(p.segment).value) in gone
  {
    var segments := ByAge(dateOf, listed);
    var removable := s => w.Removable(s);
    ByAgeIsRanked(dateOf, listed);
    hide ByAge;
    FilterKeepsMembers(removable, segments[..stop]);
    forall k | 0 <= k < |gone|
      ensures w.usage(k).Some? && low <= w.usage(k).value
    {
      assert w.AtLeast(k, low);
    }
    forall s, p | s in gone && p in listed && dateOf(p.segment).Some? && p !in w.open && w.removeOk(p)
                  && dateOf(p.segment).value < s.date
      ensures Aged(p, dateOf(p.segment).value) in gone
    {
      BeforeInOrder(segments, stop, s, Aged(p, dateOf(p.segment).value));
    }
  }

  lemma BeforeInOrder(segments: seq<Aged>, stop: nat, s: Aged, older: Aged)
    requires stop <= |segments| && s in segments[..stop] && older in segments && older.date < s.date
    requires forall i, j :: 0 <= i < j < |segments| ==> segments[i].date <= segments[j].date
    ensures older in segments[..stop]
  {
  }
}
