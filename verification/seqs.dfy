/** Filtering sequences. */
module Seqs {

  function Filter<T>(keep: T -> bool, s: seq<T>): (r: seq<T>)
    ensures |r| <= |s|
    ensures forall x :: x in r ==> x in s && keep(x)
  {
    if s == [] then []
    else if keep(s[|s| - 1]) then Filter(keep, s[..|s| - 1]) + [s[|s| - 1]]
    else Filter(keep, s[..|s| - 1])
  }

  lemma FilterStep<T>(keep: T -> bool, s: seq<T>, x: T)
    ensures Filter(keep, s + [x]) == if keep(x) then Filter(keep, s) + [x] else Filter(keep, s)
  {
    assert (s + [x])[..|s|] == s;
  }

  lemma FilterEmpty<T>(keep: T -> bool)
    ensures Filter(keep, []) == []
  {
  }

  lemma FilterFirst<T>(keep: T -> bool, x: T, s: seq<T>)
    ensures Filter(keep, [x] + s) == if keep(x) then [x] + Filter(keep, s) else Filter(keep, s)
  {
    FilterConcat(keep, [x], s);
    FilterEmpty(keep);
    FilterStep(keep, [], x);
    assert [] + [x] == [x];
  }

  lemma FilterSnoc<T>(keep: T -> bool, s: seq<T>, u: seq<T>, x: T)
    requires Filter(keep, s + u) == Filter(keep, s) + Filter(keep, u)
    ensures Filter(keep, s + (u + [x])) == Filter(keep, s) + Filter(keep, u + [x])
  {
    hide Filter;
    FilterStep(keep, u, x);
    FilterStep(keep, s + u, x);
    Associate(s, u, [x]);
    Associate(Filter(keep, s), Filter(keep, u), [x]);
  }

  lemma Associate<T>(a: seq<T>, b: seq<T>, c: seq<T>)
    ensures (a + b) + c == a + (b + c)
  {
  }

  lemma {:induction false} FilterConcat<T>(keep: T -> bool, s: seq<T>, t: seq<T>)
    ensures Filter(keep, s + t) == Filter(keep, s) + Filter(keep, t)
  {
    if t == [] {
      assert s + t == s;
      FilterEmpty(keep);
      assert Filter(keep, s) + [] == Filter(keep, s);
    } else {
      var u, x := t[..|t| - 1], t[|t| - 1];
      assert t == u + [x];
      FilterConcat(keep, s, u);
      FilterSnoc(keep, s, u, x);
    }
  }

  lemma {:induction false} FilterKeepsMembers<T>(keep: T -> bool, s: seq<T>)
    ensures forall x :: x in s && keep(x) ==> x in Filter(keep, s)
  {
    if s != [] {
      FilterKeepsMembers(keep, s[..|s| - 1]);
    }
  }

  lemma {:induction false} FilterAll<T>(keep: T -> bool, s: seq<T>)
    requires forall x :: x in s ==> keep(x)
    ensures Filter(keep, s) == s
  {
    if s != [] {
      FilterAll(keep, s[..|s| - 1]);
    }
  }

  lemma {:induction false} FilterNone<T>(keep: T -> bool, s: seq<T>)
    requires forall x :: x in s ==> !keep(x)
    ensures Filter(keep, s) == []
  {
    if s != [] {
      FilterNone(keep, s[..|s| - 1]);
    }
  }

  /** Filtering keeps each element as often as it was, or drops it. */
  lemma {:induction false} FilterCounts<T>(keep: T -> bool, s: seq<T>, x: T)
    ensures multiset(Filter(keep, s))[x] == if keep(x) then multiset(s)[x] else 0
  {
    if s != [] {
      var n := |s| - 1;
      assert s == s[..n] + [s[n]];
      FilterCounts(keep, s[..n], x);
    }
  }

  /** A narrower filter keeps no more, and the same only if it drops the same. */
  lemma {:induction false} FilterNarrower<T>(narrow: T -> bool, wide: T -> bool, s: seq<T>)
    requires forall x :: x in s && narrow(x) ==> wide(x)
    ensures |Filter(narrow, s)| <= |Filter(wide, s)|
    ensures Filter(narrow, s) == Filter(wide, s) <==> forall x :: x in s && wide(x) ==> narrow(x)
  {
    if s != [] {
      var n := |s| - 1;
      FilterNarrower(narrow, wide, s[..n]);
      var a, b := Filter(narrow, s[..n]), Filter(wide, s[..n]);
      assert a + [s[n]] == b + [s[n]] ==> a == (b + [s[n]])[..|a|] == b;
      assert forall x :: x in s <==> x in s[..n] || x == s[n];
    }
  }

  lemma {:induction false} FilterSame<T>(p: T -> bool, q: T -> bool, s: seq<T>)
    requires forall x :: x in s ==> p(x) == q(x)
    ensures Filter(p, s) == Filter(q, s)
  {
    if s != [] {
      FilterSame(p, q, s[..|s| - 1]);
    }
  }

  /** Filtering twice is filtering by both. */
  lemma {:induction false} FilterTwice<T>(p: T -> bool, q: T -> bool, both: T -> bool, s: seq<T>)
    requires forall x :: x in s ==> both(x) == (p(x) && q(x))
    ensures Filter(p, Filter(q, s)) == Filter(both, s)
  {
    if s != [] {
      var n := |s| - 1;
      FilterTwice(p, q, both, s[..n]);
      if q(s[n]) {
        FilterStep(p, Filter(q, s[..n]), s[n]);
      }
    }
  }

  function Mapped<T, U>(f: T -> U, s: seq<T>): (r: seq<U>)
    ensures |r| == |s| && forall i :: 0 <= i < |s| ==> r[i] == f(s[i])
  {
    seq(|s|, i requires 0 <= i < |s| => f(s[i]))
  }

  // ----- Concatenation -----

  function Joined<T>(lists: seq<seq<T>>): seq<T> {
    if lists == [] then [] else lists[0] + Joined(lists[1..])
  }

  lemma JoinedFirst<T>(lists: seq<seq<T>>)
    requires lists != []
    ensures Joined(lists) == lists[0] + Joined(lists[1..])
  {
  }

  lemma JoinedOne<T>(lists: seq<seq<T>>)
    requires |lists| == 1
    ensures Joined(lists) == lists[0]
  {
    assert lists[1..] == [];
  }

  lemma {:induction false} JoinedMore<T>(lists: seq<seq<T>>, more: seq<T>)
    ensures Joined(lists + [more]) == Joined(lists) + more
  {
    if lists == [] {
      assert ([] + [more])[1..] == [] && more + Joined<T>([]) == more;
    } else {
      assert (lists + [more])[1..] == lists[1..] + [more];
      JoinedMore(lists[1..], more);
    }
  }

  /** Adding a bag before or after another one is counted in. */
  lemma BagStep<T>(had: multiset<T>, last: multiset<T>, more: multiset<T>, before: multiset<T>, after: multiset<T>)
    requires (before == had + more && after == last) || (before == had && after == last + more)
    ensures before + after == had + last + more
  {
  }

  lemma BagSnoc<T>(s: seq<T>, x: T)
    ensures multiset(s + [x]) == multiset(s) + multiset{x}
  {
  }

  // ----- Unions over a sequence, whatever its order -----

  function Union<T, U>(f: T -> multiset<U>, s: seq<T>): multiset<U> {
    if s == [] then multiset{} else f(s[0]) + Union(f, s[1..])
  }

  lemma {:induction false} UnionConcat<T, U>(f: T -> multiset<U>, a: seq<T>, b: seq<T>)
    ensures Union(f, a + b) == Union(f, a) + Union(f, b)
  {
    if a == [] {
      assert a + b == b;
    } else {
      assert (a + b)[1..] == a[1..] + b;
      UnionConcat(f, a[1..], b);
    }
  }

  lemma UnionOne<T, U>(f: T -> multiset<U>, x: T)
    ensures Union(f, [x]) == f(x)
  {
    assert [x][1..] == [];
  }

  /** What the elements left out hold comes on top. */
  lemma {:induction false} UnionSplits<T, U>(f: T -> multiset<U>, keep: T -> bool, s: seq<T>)
    ensures Union(f, Filter(keep, s)) <= Union(f, s)
    ensures Union(f, Filter(keep, s)) == Union(f, s)
       <==> forall k :: 0 <= k < |s| && !keep(s[k]) ==> f(s[k]) == multiset{}
  {
    hide Union, Filter;
    if s == [] {
      FilterEmpty(keep);
    } else {
      var n := |s| - 1;
      var before, x := s[..n], s[n];
      assert s == before + [x];
      UnionSplits(f, keep, before);
      FilterStep(keep, before, x);
      UnionConcat(f, before, [x]);
      UnionConcat(f, Filter(keep, before), [x]);
      UnionOne(f, x);
    }
  }

  lemma UnionRemove<T, U>(f: T -> multiset<U>, s: seq<T>, at: nat)
    requires at < |s|
    ensures Union(f, s) == f(s[at]) + Union(f, s[..at] + s[at + 1..])
  {
    assert s == s[..at] + s[at..] && s[at..][1..] == s[at + 1..];
    UnionConcat(f, s[..at], s[at..]);
    UnionConcat(f, s[..at], s[at + 1..]);
  }

  lemma WithoutOne<T>(s: seq<T>, at: nat)
    requires at < |s|
    ensures multiset(s[..at] + s[at + 1..]) == multiset(s) - multiset{s[at]}
  {
    assert s == s[..at] + [s[at]] + s[at + 1..];
  }

  lemma PlaceOf<T>(s: seq<T>, x: T) returns (at: nat)
    requires x in multiset(s)
    ensures at < |s| && s[at] == x
  {
    at :| at < |s| && s[at] == x;
  }

  lemma SameLength<T>(s: seq<T>, t: seq<T>)
    requires multiset(s) == multiset(t)
    ensures |s| == |t|
  {
    assert |multiset(s)| == |s| && |multiset(t)| == |t|;
  }

  lemma {:induction false} UnionPermutes<T, U>(f: T -> multiset<U>, a: seq<T>, b: seq<T>)
    requires multiset(a) == multiset(b)
    ensures Union(f, a) == Union(f, b)
  {
    hide Union;
    SameLength(a, b);
    if a == [] {
      assert b == [];
    } else {
      var at := PlaceOf(b, a[0]);
      WithoutOne(a, 0);
      WithoutOne(b, at);
      UnionPermutes(f, a[..0] + a[1..], b[..at] + b[at + 1..]);
      UnionRemove(f, a, 0);
      UnionRemove(f, b, at);
    }
  }
}
