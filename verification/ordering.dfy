/** Orders, stable sorting and the bounded heap shared by the paging readers.

    `container/heap` and `sort.Slice` are used by the program through their
    contracts only: Pop yields an extreme element, Slice yields a sorted
    permutation.  The orders here are strict weak orders, so two elements may
    tie; `SortBy` keeps tied elements in their original order. */
module Ordering {
  import opened Seqs

  /** `less` is a strict weak order as far as `a`, `b` and `c` go. */
  ghost predicate Coherent<T>(less: (T, T) -> bool, a: T, b: T, c: T) {
    && !less(a, a)
    && (less(a, b) && less(b, c) ==> less(a, c))
    && (less(a, c) ==> less(a, b) || less(b, c))
  }

  ghost predicate WeakOrder<T(!new)>(less: (T, T) -> bool) {
    forall a, b, c :: Coherent(less, a, b, c)
  }

  ghost predicate Sorted<T>(less: (T, T) -> bool, s: seq<T>) {
    forall i, j :: 0 <= i < j < |s| ==> !less(s[j], s[i])
  }

  /** No two elements of `s` tie. */
  ghost predicate Tieless<T>(less: (T, T) -> bool, s: seq<T>) {
    forall i, j :: 0 <= i < j < |s| ==> less(s[i], s[j]) || less(s[j], s[i])
  }

  /** The place of `x` in `s`: after everything it does not precede. */
  function Slot<T>(less: (T, T) -> bool, x: T, s: seq<T>): (p: nat)
    ensures p <= |s|
  {
    if s == [] || less(x, s[0]) then 0 else 1 + Slot(less, x, s[1..])
  }

  lemma {:induction false} SlotSplits<T>(less: (T, T) -> bool, x: T, s: seq<T>)
    ensures var p := Slot(less, x, s);
            && (forall i :: 0 <= i < p ==> !less(x, s[i]))
            && (p < |s| ==> less(x, s[p]))
  {
    if s != [] && !less(x, s[0]) {
      SlotSplits(less, x, s[1..]);
      assert forall i :: 0 < i < |s| ==> s[i] == s[1..][i - 1];
    }
  }

  function Insert<T>(less: (T, T) -> bool, x: T, s: seq<T>): (r: seq<T>)
    ensures |r| == |s| + 1
  {
    var p := Slot(less, x, s);
    s[..p] + [x] + s[p..]
  }

  lemma InsertMultiset<T>(less: (T, T) -> bool, x: T, s: seq<T>)
    ensures multiset(Insert(less, x, s)) == multiset(s) + multiset{x}
  {
    var p := Slot(less, x, s);
    assert s == s[..p] + s[p..];
  }

  /** The stable sort of `s`. */
  function SortBy<T>(less: (T, T) -> bool, s: seq<T>): (r: seq<T>)
    ensures |r| == |s|
  {
    if s == [] then []
    else Insert(less, s[|s| - 1], SortBy(less, s[..|s| - 1]))
  }

  lemma {:induction false} SortByMultiset<T>(less: (T, T) -> bool, s: seq<T>)
    ensures multiset(SortBy(less, s)) == multiset(s)
  {
    if s != [] {
      var n := |s| - 1;
      assert s == s[..n] + [s[n]];
      SortByMultiset(less, s[..n]);
      InsertMultiset(less, s[n], SortBy(less, s[..n]));
    }
  }

  function Take<T>(k: nat, s: seq<T>): (r: seq<T>)
    ensures |r| == if k < |s| then k else |s|
  {
    if k < |s| then s[..k] else s
  }

  function TakeLast<T>(k: nat, s: seq<T>): (r: seq<T>)
    ensures |r| == if k < |s| then k else |s|
  {
    if k < |s| then s[|s| - k..] else s
  }

  lemma {:induction false} InsertKeepsSorted<T(!new)>(less: (T, T) -> bool, x: T, s: seq<T>)
    requires WeakOrder(less) && Sorted(less, s)
    ensures Sorted(less, Insert(less, x, s))
  {
    var p, r := Slot(less, x, s), Insert(less, x, s);
    SlotSplits(less, x, s);
    forall i, j | 0 <= i < j < |r|
      ensures !less(r[j], r[i])
    {
      if j == p {
        assert r[i] == s[i];
      } else if i == p {
        assert r[j] == s[j - 1];
        assert j - 1 > p ==> !less(s[j - 1], s[p]);
        assert Coherent(less, x, s[j - 1], s[p]);
        assert Coherent(less, s[j - 1], x, s[j - 1]);
      } else {
        assert r[i] == s[if i < p then i else i - 1];
        assert r[j] == s[if j < p then j else j - 1];
      }
    }
  }

  /** Where an insertion goes, seen from both sides. */
  lemma {:induction false} InsertBetween<T>(less: (T, T) -> bool, x: T, a: seq<T>, b: seq<T>)
    requires forall i :: 0 <= i < |a| ==> !less(x, a[i])
    requires b != [] ==> less(x, b[0])
    ensures Insert(less, x, a + b) == a + [x] + b
  {
    SlotIs(less, x, a, b);
  }

  lemma {:induction false} SlotIs<T>(less: (T, T) -> bool, x: T, a: seq<T>, b: seq<T>)
    requires forall i :: 0 <= i < |a| ==> !less(x, a[i])
    requires b != [] ==> less(x, b[0])
    ensures Slot(less, x, a + b) == |a|
  {
    if a == [] {
      assert a + b == b;
    } else {
      assert (a + b)[1..] == a[1..] + b;
      SlotIs(less, x, a[1..], b);
    }
  }

  /** Stable sorting and filtering commute. */
  lemma {:induction false} SortFilter<T(!new)>(less: (T, T) -> bool, keep: T -> bool, s: seq<T>)
    requires WeakOrder(less)
    ensures SortBy(less, Filter(keep, s)) == Filter(keep, SortBy(less, s))
  {
    hide Insert, Slot;
    if s != [] {
      var u, x := s[..|s| - 1], s[|s| - 1];
      SortFilter(less, keep, u);
      SortBySorted(less, u);
      InsertFilter(less, keep, x, SortBy(less, u));
      if keep(x) {
        SortByAppend(less, Filter(keep, u), x);
      }
    }
  }

  lemma SortByAppend<T>(less: (T, T) -> bool, s: seq<T>, x: T)
    ensures SortBy(less, s + [x]) == Insert(less, x, SortBy(less, s))
  {
    assert (s + [x])[..|s|] == s;
  }

  lemma InsertFilter<T(!new)>(less: (T, T) -> bool, keep: T -> bool, x: T, s: seq<T>)
    requires WeakOrder(less) && Sorted(less, s)
    ensures Filter(keep, Insert(less, x, s)) == if keep(x) then Insert(less, x, Filter(keep, s)) else Filter(keep, s)
  {
    hide Filter, Slot, Sorted, WeakOrder;
    SlotSides(less, x, s);
    var a, b := s[..Slot(less, x, s)], s[Slot(less, x, s)..];
    assert s == a + b;
    FilterConcat(keep, a, b);
    FilterConcat(keep, a + [x], b);
    FilterStep(keep, a, x);
    var fa, fb := Filter(keep, a), Filter(keep, b);
    assert forall i :: 0 <= i < |fa| ==> fa[i] in a;
    assert fb != [] ==> fb[0] in b;
    InsertBetween(less, x, fa, fb);
  }

  lemma SlotSides<T(!new)>(less: (T, T) -> bool, x: T, s: seq<T>)
    requires WeakOrder(less) && Sorted(less, s)
    ensures forall y :: y in s[..Slot(less, x, s)] ==> !less(x, y)
    ensures forall y :: y in s[Slot(less, x, s)..] ==> less(x, y)
  {
    hide Slot;
    SlotSplits(less, x, s);
    var p := Slot(less, x, s);
    forall y | y in s[p..]
      ensures less(x, y)
    {
      var j :| p <= j < |s| && s[j] == y;
      assert j > p ==> !less(s[j], s[p]);
      assert Coherent(less, x, s[j], s[p]);
    }
  }

  lemma {:induction false} SortBySorted<T(!new)>(less: (T, T) -> bool, s: seq<T>)
    requires WeakOrder(less)
    ensures Sorted(less, SortBy(less, s))
  {
    if s != [] {
      SortBySorted(less, s[..|s| - 1]);
      InsertKeepsSorted(less, s[|s| - 1], SortBy(less, s[..|s| - 1]));
    }
  }

  /** What ties throughout stays as it is. */
  lemma {:induction false} SortTied<T(!new)>(less: (T, T) -> bool, s: seq<T>)
    requires forall x, y :: x in s && y in s ==> !less(x, y)
    ensures SortBy(less, s) == s
  {
    hide Insert, Slot;
    if s != [] {
      var n := |s| - 1;
      SortTied(less, s[..n]);
      InsertBetween(less, s[n], s[..n], []);
      assert s[..n] + [] == s[..n] && s[..n] + [s[n]] + [] == s;
    }
  }

  lemma TiesByMembership<T(!new)>(less: (T, T) -> bool, s: seq<T>, t: seq<T>)
    requires WeakOrder(less)
    requires multiset(s) == multiset(t) && Tieless(less, s)
    ensures Tieless(less, t)
  {
    forall i, j | 0 <= i < j < |t|
      ensures less(t[i], t[j]) || less(t[j], t[i])
    {
      if t[i] == t[j] {
        assert t == t[..i] + [t[i]] + t[i + 1..j] + [t[j]] + t[j + 1..];
        assert multiset(t)[t[i]] >= 2;
        NoRepeats(less, s, t[i]);
      } else {
        assert t[i] in multiset(t) && t[j] in multiset(t);
        assert t[i] in s && t[j] in s;
      }
    }
  }

  lemma {:induction false} NoRepeats<T(!new)>(less: (T, T) -> bool, s: seq<T>, x: T)
    requires WeakOrder(less) && Tieless(less, s)
    ensures multiset(s)[x] <= 1
  {
    assert Coherent(less, x, x, x);
    if s != [] {
      NoRepeats(less, s[1..], x);
      assert s == [s[0]] + s[1..];
      assert forall k :: 0 <= k < |s[1..]| ==> s[1..][k] == s[k + 1];
    }
  }

  lemma SameMembers<T>(s: seq<T>, t: seq<T>)
    requires multiset(s) == multiset(t)
    ensures forall z :: z in s <==> z in t
  {
    assert forall z :: z in s <==> z in multiset(s);
    assert forall z :: z in t <==> z in multiset(t);
  }

  lemma TailMultiset<T>(s: seq<T>)
    requires s != []
    ensures multiset(s[1..]) == multiset(s) - multiset{s[0]}
  {
    assert s == [s[0]] + s[1..];
  }

  lemma HeadLeast<T(!new)>(less: (T, T) -> bool, s: seq<T>, x: T)
    requires WeakOrder(less) && Sorted(less, s) && x in s
    ensures !less(x, s[0])
  {
    assert Coherent(less, x, x, x);
  }

  lemma TieIsEquality<T(!new)>(less: (T, T) -> bool, s: seq<T>, x: T, y: T)
    requires Tieless(less, s) && x in s && y in s && !less(x, y) && !less(y, x)
    ensures x == y
  {
  }

  /** A tieless multiset has one sorted arrangement only. */
  lemma {:induction false} SortedUnique<T(!new)>(less: (T, T) -> bool, s: seq<T>, t: seq<T>)
    requires WeakOrder(less)
    requires Sorted(less, s) && Sorted(less, t)
    requires Tieless(less, s)
    requires multiset(s) == multiset(t)
    ensures s == t
  {
    if s == [] {
      assert |multiset(t)| == 0;
    } else {
      SameLength(s, t);
      SameMembers(s, t);
      assert s[0] == t[0] by {
        HeadLeast(less, s, t[0]);
        HeadLeast(less, t, s[0]);
        TieIsEquality(less, s, s[0], t[0]);
      }
      TailMultiset(s);
      TailMultiset(t);
      SortedUnique(less, s[1..], t[1..]);
    }
  }

  lemma {:induction false} SlotOfPrefix<T>(less: (T, T) -> bool, x: T, s: seq<T>, k: nat)
    requires k <= |s|
    ensures Slot(less, x, s[..k]) == if Slot(less, x, s) < k then Slot(less, x, s) else k
  {
    if k > 0 {
      assert s[..k][1..] == s[1..][..k - 1];
      SlotOfPrefix(less, x, s[1..], k - 1);
    }
  }

  lemma {:induction false} SlotOfSuffix<T(!new)>(less: (T, T) -> bool, x: T, s: seq<T>, c: nat)
    requires WeakOrder(less) && Sorted(less, s) && c <= |s|
    ensures Slot(less, x, s[c..]) == if Slot(less, x, s) < c then 0 else Slot(less, x, s) - c
  {
    if c > 0 {
      if less(x, s[0]) {
        if c < |s| {
          assert Coherent(less, x, s[c], s[0]);
        }
      } else {
        assert s[1..][c - 1..] == s[c..];
        SlotOfSuffix(less, x, s[1..], c - 1);
      }
    } else {
      assert s[0..] == s;
    }
  }

  /** Keeping the `k` least while inserting loses nothing the `k` least need. */
  lemma InsertTake<T>(less: (T, T) -> bool, x: T, s: seq<T>, k: nat)
    ensures Take(k, Insert(less, x, Take(k, s))) == Take(k, Insert(less, x, s))
  {
    if k < |s| {
      SlotOfPrefix(less, x, s, k);
      var p := Slot(less, x, s);
      if p < k {
        assert s[..k][..p] == s[..p];
        assert s[..k][p..] == s[p..k];
      }
    }
  }

  /** The same for the `k` greatest; here `s` must be sorted. */
  lemma InsertTakeLast<T(!new)>(less: (T, T) -> bool, x: T, s: seq<T>, k: nat)
    requires WeakOrder(less) && Sorted(less, s)
    ensures TakeLast(k, Insert(less, x, TakeLast(k, s))) == TakeLast(k, Insert(less, x, s))
  {
    if k < |s| {
      InsertTailAgrees(less, x, s, |s| - k);
      SameTail(less, x, s, k);
    }
  }

  lemma InsertTailAgrees<T(!new)>(less: (T, T) -> bool, x: T, s: seq<T>, c: nat)
    requires WeakOrder(less) && Sorted(less, s) && c <= |s|
    requires 0 < c
    ensures Insert(less, x, s[c..])[1..] == Insert(less, x, s)[c + 1..]
  {
    SlotOfSuffix(less, x, s, c);
    if Slot(less, x, s) < c {
      InsertBeforeCut(less, x, s, c);
    } else {
      InsertAfterCut(less, x, s, c);
      DropTwice(Insert(less, x, s), c, 1);
    }
  }

  lemma InsertBeforeCut<T>(less: (T, T) -> bool, x: T, s: seq<T>, c: nat)
    requires c <= |s| && Slot(less, x, s) < c && Slot(less, x, s[c..]) == 0
    ensures Insert(less, x, s[c..])[1..] == Insert(less, x, s)[c + 1..]
  {
    InsertIs(less, x, s);
    InsertIs(less, x, s[c..]);
    hide Insert, Slot;
    DropPastSplice(x, s, c, Slot(less, x, s));
    DropPastSplice(x, s[c..], 0, 0);
  }

  lemma InsertIs<T>(less: (T, T) -> bool, x: T, s: seq<T>)
    ensures var p := Slot(less, x, s); Insert(less, x, s) == s[..p] + [x] + s[p..]
  {
    hide Slot;
  }

  lemma InsertAfterCut<T>(less: (T, T) -> bool, x: T, s: seq<T>, c: nat)
    requires c <= |s| && c <= Slot(less, x, s) && Slot(less, x, s[c..]) == Slot(less, x, s) - c
    ensures Insert(less, x, s[c..]) == Insert(less, x, s)[c..]
  {
    hide Insert, Slot;
    InsertIs(less, x, s);
    InsertIs(less, x, s[c..]);
    DropBeforeSplice(x, s, c, Slot(less, x, s));
  }

  lemma DropTwice<T>(s: seq<T>, c: nat, d: nat)
    requires c + d <= |s|
    ensures s[c..][d..] == s[c + d..]
  {
  }

  lemma SameTail<T>(less: (T, T) -> bool, x: T, s: seq<T>, k: nat)
    requires k < |s|
    requires Insert(less, x, s[|s| - k..])[1..] == Insert(less, x, s)[|s| - k + 1..]
    ensures TakeLast(k, Insert(less, x, TakeLast(k, s))) == TakeLast(k, Insert(less, x, s))
  {
  }

  lemma DropPastSplice<T>(x: T, s: seq<T>, c: nat, p: nat)
    requires p <= c <= |s|
    ensures (s[..p] + [x] + s[p..])[c + 1..] == s[c..]
  {
  }

  lemma DropBeforeSplice<T>(x: T, s: seq<T>, c: nat, p: nat)
    requires c <= p <= |s|
    ensures var t := s[c..]; t[..p - c] + [x] + t[p - c..] == (s[..p] + [x] + s[p..])[c..]
  {
    assert s[c..][..p - c] == s[c..p];
    assert s[c..][p - c..] == s[p..];
  }

  /** What a bounded heap of `limit` elements must hold after seeing `s`. */
  function Kept<T>(less: (T, T) -> bool, newest: bool, limit: nat, s: seq<T>): seq<T> {
    if newest then TakeLast(limit, SortBy(less, s)) else Take(limit, SortBy(less, s))
  }

  lemma KeptStep<T(!new)>(less: (T, T) -> bool, newest: bool, limit: nat, s: seq<T>, x: T)
    requires WeakOrder(less)
    ensures var before := Insert(less, x, Kept(less, newest, limit, s));
            Kept(less, newest, limit, s + [x])
              == if newest then TakeLast(limit, before) else Take(limit, before)
  {
    assert (s + [x])[..|s|] == s;
    SortBySorted(less, s);
    InsertTake(less, x, SortBy(less, s), limit);
    InsertTakeLast(less, x, SortBy(less, s), limit);
  }

  lemma SliceSorted<T>(less: (T, T) -> bool, s: seq<T>, lo: nat, hi: nat)
    requires lo <= hi <= |s|
    ensures Sorted(less, s) ==> Sorted(less, s[lo..hi])
    ensures Tieless(less, s) ==> Tieless(less, s[lo..hi])
  {
  }

  lemma KeptSorted<T(!new)>(less: (T, T) -> bool, newest: bool, limit: nat, s: seq<T>)
    requires WeakOrder(less)
    ensures Sorted(less, Kept(less, newest, limit, s))
    ensures Tieless(less, s) ==> Tieless(less, Kept(less, newest, limit, s))
  {
    hide WeakOrder, Sorted, Tieless, SortBy;
    SortBySorted(less, s);
    if Tieless(less, s) {
      SortByMultiset(less, s);
      TiesByMembership(less, s, SortBy(less, s));
    }
    var t := SortBy(less, s);
    if limit < |t| {
      SliceSorted(less, t, 0, limit);
      SliceSorted(less, t, |t| - limit, |t|);
      assert t[|t| - limit..] == t[|t| - limit..|t|];
    }
  }

  /** Sorting whatever arrangement the heap holds recovers the kept page. */
  lemma SortOfHeld<T(!new)>(less: (T, T) -> bool, held: seq<T>, page: seq<T>)
    requires WeakOrder(less)
    requires multiset(held) == multiset(page)
    requires Sorted(less, page) && Tieless(less, page)
    ensures SortBy(less, held) == page
  {
    SortBySorted(less, held);
    SortByMultiset(less, held);
    SortedUnique(less, page, SortBy(less, held));
  }

  lemma KeptNothing<T>(less: (T, T) -> bool, newest: bool, limit: nat, s: seq<T>)
    requires s == []
    ensures Kept(less, newest, limit, s) == []
  {
  }

  /** What a bounded heap holds at the end, once sorted, is the kept page. */
  lemma HeldPage<T(!new)>(less: (T, T) -> bool, newest: bool, limit: nat, seen: seq<T>, held: seq<T>)
    requires WeakOrder(less) && Tieless(less, seen)
    requires multiset(held) == multiset(Kept(less, newest, limit, seen))
    ensures SortBy(less, held)
         == if newest then TakeLast(limit, SortBy(less, seen)) else Take(limit, SortBy(less, seen))
  {
    KeptSorted(less, newest, limit, seen);
    SortOfHeld(less, held, Kept(less, newest, limit, seen));
  }

  /** The bounded page heap (entryPageHeap, valueInfoHeap, logEntryHeap): Pop
      removes the least entry when it keeps the newest, else the greatest. */
  class PageHeap<T(!new, ==)> {
    const less: (T, T) -> bool
    const keepNewest: bool
    var entries: seq<T>

    constructor (less: (T, T) -> bool, keepNewest: bool)
      ensures this.less == less && this.keepNewest == keepNewest && entries == []
    {
      this.less, this.keepNewest, entries := less, keepNewest, [];
    }

    method Push(x: T)
      modifies this`entries
      ensures multiset(entries) == multiset(old(entries)) + multiset{x}
      ensures entries == old(entries) + [x]
    {
      entries := entries + [x];
    }

    method Pop() returns (x: T, ghost at: nat)
      requires entries != [] && WeakOrder(less)
      modifies this`entries
      ensures x in old(entries)
      ensures multiset(old(entries)) == multiset(entries) + multiset{x}
      ensures at < |old(entries)| && entries == old(entries)[..at] + old(entries)[at + 1..] && x == old(entries)[at]
      ensures forall y :: y in old(entries) ==> if keepNewest then !less(y, x) else !less(x, y)
    {
      var best := 0;
      assert Coherent(less, entries[0], entries[0], entries[0]);
      for i := 1 to |entries|
        invariant 0 <= best < i
        invariant entries == old(entries)
        invariant forall j :: 0 <= j < i ==>
                    if keepNewest then !less(entries[j], entries[best]) else !less(entries[best], entries[j])
      {
        ghost var prior := entries[best];
        if if keepNewest then less(entries[i], entries[best]) else less(entries[best], entries[i]) {
          best := i;
        }
        forall j | 0 <= j <= i
          ensures if keepNewest then !less(entries[j], entries[best]) else !less(entries[best], entries[j])
        {
          assert Coherent(less, entries[j], prior, entries[best]) && Coherent(less, entries[best], prior, entries[j]);
          assert Coherent(less, entries[j], entries[best], prior) && Coherent(less, prior, entries[best], entries[j]);
        }
      }
      x := entries[best];
      assert entries == entries[..best] + [x] + entries[best + 1..];
      entries := entries[..best] + entries[best + 1..];
      at := best;
    }

    /** One entry of a bounded scan: Push, then Pop if over the limit. */
    method Offer(x: T, limit: nat, ghost seen: seq<T>)
      requires WeakOrder(less) && Tieless(less, seen + [x])
      requires multiset(entries) == multiset(Kept(less, keepNewest, limit, seen))
      modifies this`entries
      ensures multiset(entries) == multiset(Kept(less, keepNewest, limit, seen + [x]))
    {
      Push(x);
      ghost var pushed := entries;
      OfferKeeps(less, keepNewest, limit, seen, x, old(entries), pushed);
      if |entries| > limit {
        var y, _ := Pop();
        PopKeeps(less, keepNewest, limit, seen, x, old(entries), pushed, entries, y);
      }
    }
  }

  lemma OfferKeeps<T(!new)>(less: (T, T) -> bool, newest: bool, limit: nat, seen: seq<T>, x: T,
                            held: seq<T>, pushed: seq<T>)
    requires WeakOrder(less) && Tieless(less, seen + [x])
    requires multiset(held) == multiset(Kept(less, newest, limit, seen))
    requires multiset(pushed) == multiset(held) + multiset{x}
    ensures |pushed| <= limit ==> multiset(pushed) == multiset(Kept(less, newest, limit, seen + [x]))
  {
    KeptStep(less, newest, limit, seen, x);
    FullSorted(less, newest, limit, seen, x);
    SameLength(pushed, Insert(less, x, Kept(less, newest, limit, seen)));
  }

  lemma PopKeeps<T(!new)>(less: (T, T) -> bool, newest: bool, limit: nat, seen: seq<T>, x: T,
                          held: seq<T>, pushed: seq<T>, popped: seq<T>, y: T)
    requires WeakOrder(less) && Tieless(less, seen + [x])
    requires multiset(held) == multiset(Kept(less, newest, limit, seen))
    requires multiset(pushed) == multiset(held) + multiset{x}
    requires |pushed| > limit
    requires y in pushed && multiset(pushed) == multiset(popped) + multiset{y}
    requires forall z :: z in pushed ==> if newest then !less(z, y) else !less(y, z)
    ensures multiset(popped) == multiset(Kept(less, newest, limit, seen + [x]))
  {
    hide SortBy, Slot, Sorted, WeakOrder;
    KeptStep(less, newest, limit, seen, x);
    FullSorted(less, newest, limit, seen, x);
    var full := Insert(less, x, Kept(less, newest, limit, seen));
    SameLength(pushed, full);
    PopExtreme(less, newest, full, pushed, popped, y);
  }

  lemma PopExtreme<T(!new)>(less: (T, T) -> bool, newest: bool, full: seq<T>, pushed: seq<T>, popped: seq<T>, y: T)
    requires WeakOrder(less) && Sorted(less, full) && Tieless(less, full)
    requires multiset(pushed) == multiset(full)
    requires y in pushed && multiset(pushed) == multiset(popped) + multiset{y}
    requires forall z :: z in pushed ==> if newest then !less(z, y) else !less(y, z)
    ensures |full| > 0
    ensures multiset(popped)
         == multiset(if newest then TakeLast(|full| - 1, full) else Take(|full| - 1, full))
  {
    SameMembers(pushed, full);
    ExtremeLeaves(less, newest, full, y);
    assert multiset(popped) == multiset(full) - multiset{y};
  }

  /** Taking the extreme element out of a tieless sorted sequence. */
  lemma ExtremeLeaves<T(!new)>(less: (T, T) -> bool, newest: bool, full: seq<T>, y: T)
    requires WeakOrder(less) && Sorted(less, full) && Tieless(less, full) && y in full
    requires forall z :: z in full ==> if newest then !less(z, y) else !less(y, z)
    ensures multiset(full) - multiset{y}
         == multiset(if newest then TakeLast(|full| - 1, full) else Take(|full| - 1, full))
  {
    var n := |full| - 1;
    if newest {
      assert y == full[0];
    } else {
      assert y == full[n];
    }
    hide WeakOrder, Sorted, Tieless;
    WithoutEnds(full);
  }

  lemma WithoutEnds<T>(full: seq<T>)
    requires full != []
    ensures var n := |full| - 1;
            && multiset(full) - multiset{full[0]} == multiset(TakeLast(n, full))
            && multiset(full) - multiset{full[n]} == multiset(Take(n, full))
  {
    var n := |full| - 1;
    assert full == [full[0]] + full[1..];
    assert full == full[..n] + [full[n]];
  }

  /** The heap just after Push, arranged in order. */
  lemma FullSorted<T(!new)>(less: (T, T) -> bool, newest: bool, limit: nat, s: seq<T>, x: T)
    requires WeakOrder(less) && Tieless(less, s + [x])
    ensures var full := Insert(less, x, Kept(less, newest, limit, s));
            && Sorted(less, full) && Tieless(less, full)
            && multiset(full) == multiset(Kept(less, newest, limit, s)) + multiset{x}
  {
    assert (s + [x])[..|s|] == s;
    SliceSorted(less, s + [x], 0, |s|);
    KeptSorted(less, newest, limit, s);
    var kept := Kept(less, newest, limit, s);
    InsertMultiset(less, x, kept);
    InsertKeepsSorted(less, x, kept);
    assert Tieless(less, kept + [x]) by {
      SortByMultiset(less, s);
      SameMembers(s, SortBy(less, s));
      forall i | 0 <= i < |kept|
        ensures less(kept[i], x) || less(x, kept[i])
      {
        assert kept[i] in SortBy(less, s);
        var k :| 0 <= k < |s| && s[k] == kept[i];
        assert (s + [x])[k] == kept[i] && (s + [x])[|s|] == x;
      }
    }
    TiesByMembership(less, kept + [x], Insert(less, x, kept));
  }
}
