/** The paged list of an index key's values (ListValues). */
module IndexValues {
  import opened Bytes
  import opened Ordering
  import opened Seqs
  import opened Writer
  import opened ShardCodec
  import opened IndexShards
  import IndexPages

  datatype ValueInfo = ValueInfo(value: Text, count: nat, lastUpdated: Time)

  /** valueInfoLess: latest first, ties by value. */
  predicate ValueLess(a: ValueInfo, b: ValueInfo) {
    if a.lastUpdated == b.lastUpdated then TextLess(a.value, b.value) else a.lastUpdated > b.lastUpdated
  }

  lemma ValueOrder()
    ensures WeakOrder(ValueLess)
  {
    forall a, b, c
      ensures Coherent(ValueLess, a, b, c)
    {
      TextLessTotal(a.value, b.value);
      TextLessTotal(b.value, c.value);
      TextLessTotal(a.value, c.value);
      if TextLess(a.value, b.value) && TextLess(b.value, c.value) {
        TextLessTransitive(a.value, b.value, c.value);
      }
      if TextLess(a.value, c.value) && TextLess(c.value, b.value) {
        TextLessTransitive(a.value, c.value, b.value);
      }
    }
  }

  // ----- One value's figures -----

  function Bump(info: ValueInfo, ref: Reference): ValueInfo {
    info.(count := info.count + 1,
          lastUpdated := if ref.validTime && ref.timestamp > info.lastUpdated then ref.timestamp else info.lastUpdated)
  }

  /** How often `v` occurs in `refs`, and its latest valid time. */
  function InfoOf(refs: seq<Reference>, v: Text): ValueInfo {
    if refs == [] then ValueInfo(v, 0, ZERO_TIME)
    else
      var before, r := InfoOf(refs[..|refs| - 1], v), refs[|refs| - 1];
      if r.value == v then Bump(before, r) else before
  }

  lemma {:induction false} InfoMeaning(refs: seq<Reference>, v: Text)
    ensures var info := InfoOf(refs, v);
            && info.value == v
            && info.count == |Filter((r: Reference) => r.value == v, refs)|
            && (info.count > 0 <==> exists r :: r in refs && r.value == v)
            && (forall r :: r in refs && r.value == v && r.validTime ==> r.timestamp <= info.lastUpdated)
            && (info.lastUpdated == ZERO_TIME
                || exists r :: r in refs && r.value == v && r.validTime && r.timestamp == info.lastUpdated)
  {
    if refs != [] {
      var n := |refs| - 1;
      InfoMeaning(refs[..n], v);
      assert refs == refs[..n] + [refs[n]];
      assert forall r :: r in refs <==> r in refs[..n] || r == refs[n];
    }
  }

  lemma InfoStep(refs: seq<Reference>, ref: Reference, v: Text)
    ensures InfoOf(refs + [ref], v) == if ref.value == v then Bump(InfoOf(refs, v), ref) else InfoOf(refs, v)
  {
    assert (refs + [ref])[..|refs|] == refs;
  }

  ghost predicate Mentions(refs: seq<Reference>, v: Text) {
    exists r :: r in refs && r.value == v
  }

  lemma {:induction false} InfoOfConcat(a: seq<Reference>, b: seq<Reference>, v: Text)
    ensures !Mentions(b, v) ==> InfoOf(a + b, v) == InfoOf(a, v)
    ensures !Mentions(a, v) ==> InfoOf(a + b, v) == InfoOf(b, v)
  {
    if b == [] {
      assert a + b == a;
      if !Mentions(a, v) {
        InfoMeaning(a, v);
        assert InfoOf(a, v).count == 0;
        NoInfo(a, v);
      }
    } else {
      var u, x := b[..|b| - 1], b[|b| - 1];
      InfoOfConcat(a, u, v);
      assert b == u + [x];
      assert Mentions(u, v) ==> Mentions(b, v);
      Associate(a, u, [x]);
      InfoStep(a + u, x, v);
      InfoStep(u, x, v);
    }
  }

  lemma {:induction false} NoInfo(refs: seq<Reference>, v: Text)
    requires !Mentions(refs, v)
    ensures InfoOf(refs, v) == ValueInfo(v, 0, ZERO_TIME)
  {
    if refs != [] {
      var n := |refs| - 1;
      assert refs[n] in refs;
      assert forall r :: r in refs[..n] ==> r in refs;
      NoInfo(refs[..n], v);
    }
  }

  // ----- The global listing -----

  /** Every available reference of the key, shard after shard. */
  function AllAvailable(logs: Files, kf: KeyFiles, shards: nat): seq<Reference>
    requires shards <= 256
  {
    if shards == 0 then [] else AllAvailable(logs, kf, shards - 1) + AvailableRefs(logs, kf, shards - 1)
  }

  /** `infos` has each value of `refs` once, with its figures. */
  ghost predicate Lists(refs: seq<Reference>, infos: seq<ValueInfo>) {
    && (forall i :: 0 <= i < |infos| ==> infos[i] == InfoOf(refs, infos[i].value) && Mentions(refs, infos[i].value))
    && (forall i, j :: 0 <= i < j < |infos| ==> infos[i].value != infos[j].value)
    && (forall r :: r in refs ==> exists i :: 0 <= i < |infos| && infos[i].value == r.value)
  }

  /** The list a client sees: sorted by latest time, then value. */
  ghost predicate IsListing(refs: seq<Reference>, infos: seq<ValueInfo>) {
    Lists(refs, infos) && Sorted(ValueLess, infos)
  }

  lemma DistinctValuesTieless(infos: seq<ValueInfo>)
    requires forall i, j :: 0 <= i < j < |infos| ==> infos[i].value != infos[j].value
    ensures Tieless(ValueLess, infos)
  {
    forall i, j | 0 <= i < j < |infos|
      ensures ValueLess(infos[i], infos[j]) || ValueLess(infos[j], infos[i])
    {
      TextLessTotal(infos[i].value, infos[j].value);
    }
  }

  /** There is only one listing. */
  lemma ListingUnique(refs: seq<Reference>, a: seq<ValueInfo>, b: seq<ValueInfo>)
    requires IsListing(refs, a) && IsListing(refs, b)
    ensures a == b
  {
    DistinctValuesTieless(a);
    ValueOrder();
    ListsInclude(refs, a, b);
    ListsInclude(refs, b, a);
    SortedUnique(ValueLess, a, b);
  }

  lemma ListsInclude(refs: seq<Reference>, a: seq<ValueInfo>, b: seq<ValueInfo>)
    requires Lists(refs, a) && Lists(refs, b)
    ensures multiset(a) == multiset(b)
  {
    forall x
      ensures multiset(a)[x] == multiset(b)[x]
    {
      OnceEach(a, x);
      OnceEach(b, x);
      if x in a {
        Shared(refs, a, b, x);
      }
      if x in b {
        Shared(refs, b, a, x);
      }
    }
  }

  lemma Shared(refs: seq<Reference>, a: seq<ValueInfo>, b: seq<ValueInfo>, x: ValueInfo)
    requires Lists(refs, a) && Lists(refs, b) && x in a
    ensures x in b
  {
    var i :| 0 <= i < |a| && a[i] == x;
    var r :| r in refs && r.value == x.value;
    var k :| 0 <= k < |b| && b[k].value == r.value;
    assert b[k] == InfoOf(refs, x.value) == x;
  }

  lemma {:induction false} OnceEach(a: seq<ValueInfo>, x: ValueInfo)
    requires forall i, j :: 0 <= i < j < |a| ==> a[i].value != a[j].value
    ensures multiset(a)[x] == if x in a then 1 else 0
  {
    if a != [] {
      OnceEach(a[1..], x);
      assert a == [a[0]] + a[1..];
      assert forall k :: 0 <= k < |a[1..]| ==> a[1..][k] == a[k + 1];
    }
  }

  function SumCounts(infos: seq<ValueInfo>): nat {
    if infos == [] then 0 else infos[0].count + SumCounts(infos[1..])
  }

  lemma SomeListed(refs: seq<Reference>, infos: seq<ValueInfo>)
    ensures Lists(refs, infos) && refs != [] ==> infos != []
  {
    hide InfoOf;
    assert refs != [] ==> refs[0] in refs;
  }

  /** The counts of a listing add up to the available references. */
  lemma {:induction false} CountsAddUp(refs: seq<Reference>, infos: seq<ValueInfo>)
    requires Lists(refs, infos)
    ensures SumCounts(infos) == |refs|
    decreases |infos|
  {
    SomeListed(refs, infos);
    if infos != [] {
      var v := infos[0].value;
      var others := Filter((r: Reference) => r.value != v, refs);
      SplitByValue(refs, v);
      forall i | 0 < i < |infos|
        ensures infos[i] == InfoOf(others, infos[i].value) && Mentions(others, infos[i].value)
      {
        OthersKeep(refs, v, infos[i].value);
      }
      assert Lists(others, infos[1..]) by {
        forall r | r in others
          ensures exists i :: 0 <= i < |infos[1..]| && infos[1..][i].value == r.value
        {
          assert r in refs && r.value != v;
          var i :| 0 <= i < |infos| && infos[i].value == r.value;
          assert infos[1..][i - 1].value == r.value;
        }
      }
      CountsAddUp(others, infos[1..]);
    }
  }

  lemma {:induction false} SplitByValue(refs: seq<Reference>, v: Text)
    ensures |refs| == InfoOf(refs, v).count + |Filter((r: Reference) => r.value != v, refs)|
  {
    if refs != [] {
      SplitByValue(refs[..|refs| - 1], v);
    }
  }

  lemma {:induction false} OthersKeep(refs: seq<Reference>, v: Text, w: Text)
    requires v != w
    ensures InfoOf(Filter((r: Reference) => r.value != v, refs), w) == InfoOf(refs, w)
    ensures Mentions(refs, w) ==> Mentions(Filter((r: Reference) => r.value != v, refs), w)
  {
    var keep := (r: Reference) => r.value != v;
    FilterKeepsMembers(keep, refs);
    if refs != [] {
      var n := |refs| - 1;
      OthersKeep(refs[..n], v, w);
      if keep(refs[n]) {
        InfoStep(Filter(keep, refs[..n]), refs[n], w);
      }
    }
  }

  // ----- Shard by shard -----

  /** The references a value has are all in its own shard. */
  lemma {:induction false} OwnShard(lib: Library, logs: Files, kf: KeyFiles, shards: nat, v: Text)
    requires shards <= 256 && Sharded(lib, kf)
    ensures InfoOf(AllAvailable(logs, kf, shards), v)
         == if lib.shardOf(v) < shards then InfoOf(AvailableRefs(logs, kf, lib.shardOf(v)), v)
             else ValueInfo(v, 0, ZERO_TIME)
    ensures Mentions(AllAvailable(logs, kf, shards), v)
         <==> lib.shardOf(v) < shards && Mentions(AvailableRefs(logs, kf, lib.shardOf(v)), v)
  {
    hide ScanFile, InfoOf, Filter, Available;
    if shards == 0 {
      NoInfo([], v);
    } else {
      var before, here := AllAvailable(logs, kf, shards - 1), AvailableRefs(logs, kf, shards - 1);
      OwnShard(lib, logs, kf, shards - 1, v);
      InfoOfConcat(before, here, v);
      if Mentions(here, v) {
        ShardOnly(lib, logs, kf, shards - 1, v);
      }
      assert forall r :: r in before + here <==> r in before || r in here;
      if !Mentions(before, v) && !Mentions(here, v) {
        NoInfo(before + here, v);
        NoInfo(here, v);
      }
    }
  }

  lemma ShardOnly(lib: Library, logs: Files, kf: KeyFiles, shard: byte, v: Text)
    requires Sharded(lib, kf) && Mentions(AvailableRefs(logs, kf, shard), v)
    ensures lib.shardOf(v) == shard
  {
    hide ScanFile, Available;
    var r :| r in AvailableRefs(logs, kf, shard) && r.value == v;
    assert r in RefsOf(kf, shard);
  }

  /** One shard's references grouped in a map, as the scan does it. */
  ghost predicate Grouped(refs: seq<Reference>, byValue: map<Text, ValueInfo>) {
    && (forall v :: v in byValue ==> Mentions(refs, v) && byValue[v] == InfoOf(refs, v))
    && (forall r :: r in refs ==> r.value in byValue)
  }

  lemma GroupedStep(refs: seq<Reference>, ref: Reference, byValue: map<Text, ValueInfo>)
    requires Grouped(refs, byValue)
    ensures var info := if ref.value in byValue then byValue[ref.value] else ValueInfo(ref.value, 0, ZERO_TIME);
            Grouped(refs + [ref], byValue[ref.value := Bump(info, ref)])
  {
    hide InfoOf;
    forall v
      ensures InfoOf(refs + [ref], v) == if ref.value == v then Bump(InfoOf(refs, v), ref) else InfoOf(refs, v)
      ensures Mentions(refs + [ref], v) <==> Mentions(refs, v) || ref.value == v
    {
      InfoStep(refs, ref, v);
      assert forall r :: r in refs + [ref] <==> r in refs || r == ref;
    }
    if ref.value !in byValue {
      assert !Mentions(refs, ref.value);
      NoInfo(refs, ref.value);
    }
  }

  method GroupShard(logs: Files, refs: seq<Reference>) returns (byValue: map<Text, ValueInfo>)
    ensures Grouped(Filter(r => Available(logs, r), refs), byValue)
  {
    hide Available;
    byValue := map[];
    var keep := r => Available(logs, r);
    for i := 0 to |refs|
      invariant Grouped(Filter(keep, refs[..i]), byValue)
    {
      assert refs[..i + 1] == refs[..i] + [refs[i]];
      FilterStep(keep, refs[..i], refs[i]);
      if Available(logs, refs[i]) {
        var ref := refs[i];
        GroupedStep(Filter(keep, refs[..i]), ref, byValue);
        var info := if ref.value in byValue then byValue[ref.value] else ValueInfo(ref.value, 0, ZERO_TIME);
        byValue := byValue[ref.value := Bump(info, ref)];
      }
    }
    assert refs[..|refs|] == refs;
  }

  /** Offers a shard's values to the heap, in any order. */
  method OfferShard(h: PageHeap<ValueInfo>, byValue: map<Text, ValueInfo>, limit: nat,
                    ghost refs: seq<Reference>, ghost here: seq<Reference>, ghost seen: seq<ValueInfo>)
    returns (count: nat, ghost seen': seq<ValueInfo>)
    requires h.less == ValueLess && !h.keepNewest
    requires Lists(refs, seen) && Grouped(here, byValue)
    requires forall v :: !(Mentions(refs, v) && Mentions(here, v))
    requires multiset(h.entries) == multiset(Kept(ValueLess, false, limit, seen))
    modifies h`entries
    ensures Lists(refs + here, seen') && count == |seen'| - |seen| >= 0
    ensures multiset(h.entries) == multiset(Kept(ValueLess, false, limit, seen'))
  {
    hide InfoOf, Kept, ValueLess;
    seen', count := seen, 0;
    var todo := byValue.Keys;
    ValueOrder();
    AddNothing(refs, here, byValue, seen);
    while todo != {}
      invariant todo <= byValue.Keys && count == |seen'| - |seen| >= 0
      invariant Adding(refs + here, todo, seen')
      invariant multiset(h.entries) == multiset(Kept(ValueLess, false, limit, seen'))
      decreases |todo|
    {
      var v :| v in todo;
      AddOne(refs, here, byValue, todo, seen', v);
      h.Offer(byValue[v], limit, seen');
      seen', count := seen' + [byValue[v]], count + 1;
      todo := todo - {v};
    }
    AddedAll(refs, here, byValue, seen');
  }

  /** Half way through a shard: its values outside `todo` are listed. */
  ghost predicate Adding(refs: seq<Reference>, todo: set<Text>, seen: seq<ValueInfo>) {
    && (forall i :: 0 <= i < |seen| ==>
          && seen[i] == InfoOf(refs, seen[i].value)
          && Mentions(refs, seen[i].value) && seen[i].value !in todo)
    && (forall i, j :: 0 <= i < j < |seen| ==> seen[i].value != seen[j].value)
    && (forall r :: r in refs && r.value !in todo ==> exists i :: 0 <= i < |seen| && seen[i].value == r.value)
  }

  lemma MentionsConcat(a: seq<Reference>, b: seq<Reference>, v: Text)
    ensures Mentions(a + b, v) <==> Mentions(a, v) || Mentions(b, v)
  {
    assert forall r :: r in a + b <==> r in a || r in b;
  }

  lemma AddNothing(refs: seq<Reference>, here: seq<Reference>, byValue: map<Text, ValueInfo>, seen: seq<ValueInfo>)
    requires Lists(refs, seen) && Grouped(here, byValue)
    requires forall v :: !(Mentions(refs, v) && Mentions(here, v))
    ensures Adding(refs + here, byValue.Keys, seen)
  {
    hide InfoOf;
    forall i | 0 <= i < |seen|
      ensures seen[i] == InfoOf(refs + here, seen[i].value) && Mentions(refs + here, seen[i].value)
      ensures seen[i].value !in byValue
    {
      InfoOfConcat(refs, here, seen[i].value);
      MentionsConcat(refs, here, seen[i].value);
    }
    assert forall r :: r in refs + here && r.value !in byValue ==> r in refs;
  }

  lemma AddOne(refs: seq<Reference>, here: seq<Reference>, byValue: map<Text, ValueInfo>,
               todo: set<Text>, seen: seq<ValueInfo>, v: Text)
    requires Grouped(here, byValue) && Adding(refs + here, todo, seen)
    requires v in todo && todo <= byValue.Keys
    requires forall w :: !(Mentions(refs, w) && Mentions(here, w))
    ensures Adding(refs + here, todo - {v}, seen + [byValue[v]])
    ensures Tieless(ValueLess, seen + [byValue[v]])
  {
    hide InfoOf, ValueLess, Mentions, Adding, Tieless;
    assert byValue[v] == InfoOf(refs + here, v) && Mentions(refs + here, v) by {
      InfoOfConcat(refs, here, v);
      MentionsConcat(refs, here, v);
    }
    InfoMeaning(refs + here, v);
    AddInfo(refs + here, todo, seen, byValue[v]);
  }

  lemma AddInfo(refs: seq<Reference>, todo: set<Text>, seen: seq<ValueInfo>, info: ValueInfo)
    requires Adding(refs, todo, seen) && info.value in todo
    requires info == InfoOf(refs, info.value) && Mentions(refs, info.value)
    ensures Adding(refs, todo - {info.value}, seen + [info]) && Tieless(ValueLess, seen + [info])
  {
    hide InfoOf, ValueLess, Mentions;
    AddCovers(refs, todo, seen, info);
    DistinctValuesTieless(seen + [info]);
  }

  lemma AddCovers(refs: seq<Reference>, todo: set<Text>, seen: seq<ValueInfo>, info: ValueInfo)
    requires forall r :: r in refs && r.value !in todo ==> exists i :: 0 <= i < |seen| && seen[i].value == r.value
    ensures var next := seen + [info];
            forall r :: r in refs && r.value !in todo - {info.value} ==>
                exists i :: 0 <= i < |next| && next[i].value == r.value
  {
    var v, next := info.value, seen + [info];
    forall r | r in refs && r.value !in todo - {v}
      ensures exists i :: 0 <= i < |next| && next[i].value == r.value
    {
      if r.value == v {
        assert next[|seen|].value == r.value;
      } else {
        var i :| 0 <= i < |seen| && seen[i].value == r.value;
        assert next[i].value == r.value;
      }
    }
  }

  lemma AddedAll(refs: seq<Reference>, here: seq<Reference>, byValue: map<Text, ValueInfo>, seen: seq<ValueInfo>)
    requires Adding(refs + here, {}, seen)
    ensures Lists(refs + here, seen)
  {
    hide InfoOf;
  }

  // ----- The answer of ListValues -----

  datatype Answer =
    | InvalidToken
    | Unreadable
    | Values(page: seq<ValueInfo>, next: Option<nat>, prev: Option<nat>)

  function PageSize(requested: int): (p: nat)
    ensures p == if requested <= 0 then 50 else if requested > 200 then 200 else requested
  {
    Clamped(requested, 50, 200)
  }

  /** What ListValues must answer, given the one listing of the key. */
  function ListingAnswer(listing: seq<ValueInfo>, requested: int, start: nat): Answer {
    var p := PageSize(requested);
    if start > |listing| then InvalidToken
    else
      var page := IndexPages.Slice(listing, start, p);
      Values(page, IndexPages.NextStart(|listing|, start, |page|), IndexPages.PrevStart(start, p))
  }

  // ----- The same, spelled out -----

  /** The references a listing counts: those whose bytes are there, in whatever
      shard, which is that of their value. */
  lemma AvailableSpelledOut(lib: Library, logs: Files, kf: KeyFiles, r: Reference)
    requires Sharded(lib, kf) && r.offset + r.length < TWO_63
    ensures multiset(AllAvailable(logs, kf, 256))[r]
         == if r.path in logs && 0 <= r.offset && r.offset + r.length <= |logs[r.path].bytes|
            then multiset(RefsOf(kf, lib.shardOf(r.value)))[r] else 0
  {
    hide ScanFile, AvailableRefs;
    CountUpTo(lib, logs, kf, 256, r);
    AvailableCounts(logs, kf, lib.shardOf(r.value), r);
  }

  lemma AvailableCounts(logs: Files, kf: KeyFiles, shard: byte, r: Reference)
    requires r.offset + r.length < TWO_63
    ensures multiset(AvailableRefs(logs, kf, shard))[r]
         == if r.path in logs && 0 <= r.offset && r.offset + r.length <= |logs[r.path].bytes|
            then multiset(RefsOf(kf, shard))[r] else 0
  {
    hide ScanFile, Filter;
    FilterCounts(q => Available(logs, q), RefsOf(kf, shard), r);
  }

  lemma {:induction false} CountUpTo(lib: Library, logs: Files, kf: KeyFiles, shards: nat, r: Reference)
    requires Sharded(lib, kf) && shards <= 256
    ensures multiset(AllAvailable(logs, kf, shards))[r]
         == if lib.shardOf(r.value) < shards then multiset(AvailableRefs(logs, kf, lib.shardOf(r.value)))[r] else 0
  {
    hide AvailableRefs, Sharded;
    if shards > 0 {
      CountUpTo(lib, logs, kf, shards - 1, r);
      if lib.shardOf(r.value) != shards - 1 {
        NotInOther(lib, logs, kf, shards - 1, r);
      }
    }
  }

  lemma NotInOther(lib: Library, logs: Files, kf: KeyFiles, shard: byte, r: Reference)
    requires Sharded(lib, kf) && lib.shardOf(r.value) != shard
    ensures r !in AvailableRefs(logs, kf, shard)
  {
    hide ScanFile, Available;
  }

  /** A listing of references has each of their values once, with how many there
      are and the latest of their valid times, or January 1 of year 1 if none is
      valid and later; the latest first, and among equals by value. */
  lemma ListingSpelledOut(refs: seq<Reference>, infos: seq<ValueInfo>)
    requires IsListing(refs, infos)
    ensures forall i :: 0 <= i < |infos| ==>
              && infos[i].count == |Filter((r: Reference) => r.value == infos[i].value, refs)| > 0
              && (forall r :: r in refs && r.value == infos[i].value && r.validTime ==>
                    r.timestamp <= infos[i].lastUpdated)
              && (infos[i].lastUpdated == -62_135_596_800 * 1_000_000_000
                  || exists r :: r in refs && r.value == infos[i].value && r.validTime
                                 && r.timestamp == infos[i].lastUpdated)
    ensures forall r :: r in refs ==> exists i :: 0 <= i < |infos| && infos[i].value == r.value
    ensures forall i, j :: 0 <= i < j < |infos| ==>
              || infos[i].lastUpdated > infos[j].lastUpdated
              || (infos[i].lastUpdated == infos[j].lastUpdated && TextLess(infos[i].value, infos[j].value))
  {
    hide InfoOf, TextLess, Filter;
    forall i | 0 <= i < |infos|
      ensures infos[i].count == |Filter((r: Reference) => r.value == infos[i].value, refs)|
      ensures infos[i] == InfoOf(refs, infos[i].value) && infos[i].count > 0
      ensures forall r :: r in refs && r.value == infos[i].value && r.validTime ==> r.timestamp <= infos[i].lastUpdated
      ensures infos[i].lastUpdated == ZERO_TIME
              || exists r :: r in refs && r.value == infos[i].value && r.validTime
                             && r.timestamp == infos[i].lastUpdated
    {
      InfoMeaning(refs, infos[i].value);
    }
    forall i, j | 0 <= i < j < |infos|
      ensures || infos[i].lastUpdated > infos[j].lastUpdated
              || (infos[i].lastUpdated == infos[j].lastUpdated && TextLess(infos[i].value, infos[j].value))
    {
      assert !ValueLess(infos[j], infos[i]);
      TextLessTotal(infos[i].value, infos[j].value);
    }
  }

  /** One page of a listing, and its tokens. */
  lemma PageShows(listing: seq<ValueInfo>, requested: int, start: nat)
    ensures var p := if requested <= 0 then 50 else if requested > 200 then 200 else requested;
            var end := if start + p < |listing| then start + p else |listing|;
            ListingAnswer(listing, requested, start)
            == if start > |listing| then InvalidToken
               else Values(listing[start..end], if end < |listing| then Some(end) else None,
                           if start == 0 then None else Some(if start < p then 0 else start - p))
  {
  }

  /** Following next tokens shows every value once, in the listing's order. */
  lemma WalkValues(refs: seq<Reference>, listing: seq<ValueInfo>, requested: int)
    requires IsListing(refs, listing)
    ensures IndexPages.Walk(listing, 0, PageSize(requested)) == listing
  {
    IndexPages.WalkCovers(listing, 0, PageSize(requested));
  }

  /** The values a client is really shown, by the tokens of the answers. */
  function Shown(listing: seq<ValueInfo>, requested: int, start: nat, fuel: nat): seq<ValueInfo>
    decreases fuel
  {
    match ListingAnswer(listing, requested, start)
    case Values(page, next, _) =>
      page + if next == None || fuel == 0 then [] else Shown(listing, requested, next.value, fuel - 1)
    case _ => []
  }

  /** Following next tokens from the first request shows exactly the listing. */
  lemma {:induction false} TokensShowAll(listing: seq<ValueInfo>, requested: int, start: nat, fuel: nat)
    requires start <= |listing| <= start + fuel
    ensures Shown(listing, requested, start, fuel) == listing[start..]
    decreases fuel
  {
    hide IndexPages.Slice;
    var p := PageSize(requested);
    var end := start + |IndexPages.Slice(listing, start, p)|;
    IndexPages.SliceAndRest(listing, start, p);
    if end < |listing| {
      TokensShowAll(listing, requested, end, fuel - 1);
    } else {
      assert listing[end..] == [];
    }
  }

  /** Scans the shards into the heap: every value of the key is offered once. */
  method CollectValues(lib: Library, logs: Files, kf: KeyFiles, limit: nat)
    returns (sorted: seq<ValueInfo>, valueCount: nat, ok: bool, ghost listing: seq<ValueInfo>)
    requires Sharded(lib, kf)
    ensures ok <==> forall s: byte :: ScanOf(kf, s).ok
    ensures ok ==> IsListing(AllAvailable(logs, kf, 256), listing)
    ensures ok ==> valueCount == |listing| && sorted == Take(limit, listing)
  {
    hide ScanFile, InfoOf, Kept, ValueLess, Available, Filter, Sharded, Lists, Grouped, IsListing, AllAvailable,
         Mentions;
    var h := new PageHeap(ValueLess, false);
    NothingListed(logs, kf);
    ghost var seen: seq<ValueInfo> := [];
    sorted, valueCount, ok, listing := [], 0, true, [];
    ValueOrder();
    KeptNothing(ValueLess, false, limit, seen);
    for shard := 0 to 256
      invariant h.less == ValueLess && !h.keepNewest && ok && valueCount == |seen|
      invariant forall s: byte :: s < shard ==> ScanOf(kf, s).ok
      invariant Lists(AllAvailable(logs, kf, shard), seen)
      invariant multiset(h.entries) == multiset(Kept(ValueLess, false, limit, seen))
    {
      var refs := [];
      if shard in kf {
        refs, ok := ScanShard(kf[shard]);
      }
      assert Scan(refs, ok) == ScanOf(kf, shard);
      if !ok {
        return;
      }
      var byValue := GroupShard(logs, refs);
      ghost var before, here := AllAvailable(logs, kf, shard), AvailableRefs(logs, kf, shard);
      ShardsApart(lib, logs, kf, shard);
      var count;
      count, seen := OfferShard(h, byValue, limit, before, here, seen);
      valueCount := valueCount + count;
    }
    listing := SortBy(ValueLess, seen);
    SortedListing(AllAvailable(logs, kf, 256), seen);
    ListedTieless(AllAvailable(logs, kf, 256), seen);
    HeldPage(ValueLess, false, limit, seen, h.entries);
    sorted := SortBy(ValueLess, h.entries);
  }

  lemma ListedTieless(refs: seq<Reference>, seen: seq<ValueInfo>)
    requires Lists(refs, seen)
    ensures Tieless(ValueLess, seen)
  {
    hide InfoOf, ValueLess, Mentions;
    DistinctValuesTieless(seen);
  }

  lemma NothingListed(logs: Files, kf: KeyFiles)
    ensures Lists(AllAvailable(logs, kf, 0), [])
  {
  }

  /** A shard has no value in common with those before it. */
  lemma ShardsApart(lib: Library, logs: Files, kf: KeyFiles, shard: byte)
    requires Sharded(lib, kf)
    ensures var before, here := AllAvailable(logs, kf, shard), AvailableRefs(logs, kf, shard);
            && AllAvailable(logs, kf, shard + 1) == before + here
            && forall v :: !(Mentions(before, v) && Mentions(here, v))
  {
    hide AvailableRefs, Mentions, Sharded;
    forall v
      ensures !(Mentions(AllAvailable(logs, kf, shard), v) && Mentions(AvailableRefs(logs, kf, shard), v))
    {
      OwnShard(lib, logs, kf, shard, v);
      if Mentions(AvailableRefs(logs, kf, shard), v) {
        ShardOnly(lib, logs, kf, shard, v);
      }
    }
  }

  lemma SortedListing(refs: seq<Reference>, seen: seq<ValueInfo>)
    requires Lists(refs, seen)
    ensures IsListing(refs, SortBy(ValueLess, seen))
  {
    hide InfoOf, ValueLess;
    ValueOrder();
    SortBySorted(ValueLess, seen);
    SortByMultiset(ValueLess, seen);
    var listing := SortBy(ValueLess, seen);
    SameMembers(seen, listing);
    DistinctValuesTieless(seen);
    forall i | 0 <= i < |listing|
      ensures listing[i] == InfoOf(refs, listing[i].value) && Mentions(refs, listing[i].value)
    {
      assert listing[i] in seen;
    }
    forall r | r in refs
      ensures exists i :: 0 <= i < |listing| && listing[i].value == r.value
    {
      var k :| 0 <= k < |seen| && seen[k].value == r.value;
      assert seen[k] in listing;
    }
    TiesByMembership(ValueLess, seen, listing);
    forall i, j | 0 <= i < j < |listing|
      ensures listing[i].value != listing[j].value
    {
      assert Coherent(ValueLess, listing[i], listing[i], listing[i]);
      assert listing[i] == InfoOf(refs, listing[i].value) && listing[j] == InfoOf(refs, listing[j].value);
    }
  }

  /** `answer` is the page of the listing that `token` asks for. */
  ghost predicate Answers(lib: Library, logs: Files, kf: KeyFiles, requested: int, token: IndexPages.Token,
                          listing: seq<ValueInfo>, answer: Answer)
  {
    if token.GarbageToken? || (token.NumberToken? && token.n < 0) then answer == InvalidToken
    else if exists s: byte :: !ScanOf(kf, s).ok then answer == Unreadable
    else
      && IsListing(AllAvailable(logs, kf, 256), listing)
      && answer == ListingAnswer(listing, requested, if token.NumberToken? then token.n else 0)
  }

  /** `answer` is what the one listing of the key gives. */
  ghost predicate AnswersRightly(lib: Library, logs: Files, kf: KeyFiles, requested: int, token: IndexPages.Token,
                                 answer: Answer) {
    exists listing :: Answers(lib, logs, kf, requested, token, listing, answer)
  }

  /** The part of ListValues after the key has been found. */
  method ListPage(lib: Library, logs: Files, kf: KeyFiles, requested: int, token: IndexPages.Token)
    returns (answer: Answer)
    requires Sharded(lib, kf)
    ensures AnswersRightly(lib, logs, kf, requested, token, answer)
  {
    ghost var listing;
    answer, listing := ListingPage(lib, logs, kf, requested, token);
  }

  method ListingPage(lib: Library, logs: Files, kf: KeyFiles, requested: int, token: IndexPages.Token)
    returns (answer: Answer, ghost listing: seq<ValueInfo>)
    requires Sharded(lib, kf)
    ensures Answers(lib, logs, kf, requested, token, listing, answer)
  {
    hide ScanFile, InfoOf, AllAvailable, Lists, Sorted, IsListing, Take, Sharded;
    var pageSize := requested;
    listing := [];
    if pageSize <= 0 {
      pageSize := 50;
    }
    if pageSize > 200 {
      pageSize := 200;
    }
    var start := 0;
    if token != IndexPages.NoToken {
      if token.GarbageToken? || token.n < 0 {
        return InvalidToken, listing;
      }
      start := token.n;
    }
    var sorted, valueCount, ok;
    sorted, valueCount, ok, listing := CollectValues(lib, logs, kf, start + pageSize);
    if !ok {
      return Unreadable, listing;
    }
    if start > valueCount {
      return InvalidToken, listing;
    }
    answer := BuildListing(listing, sorted, valueCount, requested, start, pageSize);
  }

  /** The page that `start` asks for, cut from the first values of the listing. */
  method BuildListing(ghost listing: seq<ValueInfo>, sorted: seq<ValueInfo>, valueCount: nat, requested: int,
                      from: nat, pageSize: nat) returns (answer: Answer)
    requires from <= valueCount == |listing| && sorted == Take(from + pageSize, listing)
    requires pageSize == PageSize(requested)
    ensures answer == ListingAnswer(listing, requested, from)
  {
    var start := from;
    IndexPages.PageIsSlice(listing, start, pageSize, false);
    if start > |sorted| {
      start := |sorted|;
    }
    var page := sorted[start..];
    var next: Option<nat> := None;
    var end := start + |page|;
    if end < valueCount {
      next := Some(end);
    }
    var prev: Option<nat> := None;
    if start > 0 {
      var prevStart := start - pageSize;
      if prevStart < 0 {
        prevStart := 0;
      }
      prev := Some(prevStart);
    }
    answer := Values(page, next, prev);
  }

  /** Compaction changes no listing, and no shard's ability to be scanned. */
  lemma CompactKeepsValues(lib: Library, logs: Files, kf: KeyFiles, shards: nat)
    requires shards <= 256
    ensures AllAvailable(logs, CompactFrom(logs, kf, 0).0, shards) == AllAvailable(logs, kf, shards)
    ensures forall s: byte :: ScanOf(CompactFrom(logs, kf, 0).0, s).ok == ScanOf(kf, s).ok
  {
    hide ScanFile, Records, Filter, CompactFrom;
    forall s: byte
      ensures ScanOf(CompactFrom(logs, kf, 0).0, s).ok == ScanOf(kf, s).ok
    {
      CompactChangesNothing(lib, logs, kf, s);
    }
    if shards > 0 {
      CompactKeepsValues(lib, logs, kf, shards - 1);
      CompactChangesNothing(lib, logs, kf, shards - 1);
    }
  }

  /** Every ListValues answer is the same before and after compaction. */
  lemma CompactKeepsListings(lib: Library, logs: Files, kf: KeyFiles, requested: int, token: IndexPages.Token,
                             answer: Answer)
    ensures var after := CompactFrom(logs, kf, 0).0;
            AnswersRightly(lib, logs, kf, requested, token, answer)
            <==> AnswersRightly(lib, logs, after, requested, token, answer)
  {
    hide CompactFrom, AllAvailable, ScanOf, IsListing, ListingAnswer;
    var after := CompactFrom(logs, kf, 0).0;
    CompactKeepsValues(lib, logs, kf, 256);
    forall listing
      ensures Answers(lib, logs, kf, requested, token, listing, answer)
         <==> Answers(lib, logs, after, requested, token, listing, answer)
    {
    }
  }
}
