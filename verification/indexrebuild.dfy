/** When a line's write and its observation are one step: whether the index
    holds exactly the references a rebuild would, failed writes included. */
module IndexRebuild {
  import opened Bytes
  import opened Lines
  import opened Writer
  import opened ShardCodec
  import opened IndexShards
  import opened IndexManager
  import opened IndexAgreement
  import opened Seqs

  /** All references of the key, whatever their shard. */
  function AllRefs(kf: KeyFiles, shards: nat): multiset<Reference>
    requires shards <= 256
  {
    if shards == 0 then multiset{} else AllRefs(kf, shards - 1) + multiset(RefsOf(kf, shards - 1))
  }

  lemma {:induction false} AppendedOne(lib: Library, kf: KeyFiles, ref: Reference, shards: nat)
    requires Good(lib, kf) && Fits(ref) && shards <= 256
    ensures Good(lib, AppendTo(lib, kf, ref))
    ensures AllRefs(AppendTo(lib, kf, ref), shards)
         == AllRefs(kf, shards) + if lib.shardOf(ref.value) < shards then multiset{Canonical(ref)} else multiset{}
  {
    hide ScanFile, AppendTo, Canonical, Good, RefsOf;
    AppendAdds(lib, kf, ref);
    if shards > 0 {
      AppendedOne(lib, kf, ref, shards - 1);
      var after, last := AppendTo(lib, kf, ref), multiset(RefsOf(kf, shards - 1));
      var more := if lib.shardOf(ref.value) < shards then multiset{Canonical(ref)} else multiset{};
      BagSnoc(RefsOf(kf, shards - 1), Canonical(ref));
      BagStep(AllRefs(kf, shards - 1), last, more, AllRefs(after, shards - 1), multiset(RefsOf(after, shards - 1)));
    }
  }

  function OneRef(ref: Option<Reference>): multiset<Reference> {
    match ref case None => multiset{} case Some(r) => multiset{Canonical(r)}
  }

  lemma AddedOne(lib: Library, kf: KeyFiles, ref: Option<Reference>)
    requires Good(lib, kf) && (ref.Some? ==> Fits(ref.value))
    ensures Good(lib, AddRef(lib, kf, ref))
    ensures AllRefs(AddRef(lib, kf, ref), 256) == AllRefs(kf, 256) + OneRef(ref)
  {
    hide AppendTo, Canonical, Good, RefsOf;
    if ref.Some? {
      AppendedOne(lib, kf, ref.value, 256);
    }
  }

  /** The references these lines of one segment give. */
  function FileRefs(lib: Library, key: Text, path: Path, ls: seq<Located>): multiset<Reference> {
    if ls == [] then multiset{}
    else OneRef(LineRef(lib, key, path, ls[0].offset, |ls[0].text|, ls[0].text)) + FileRefs(lib, key, path, ls[1..])
  }

  lemma {:induction false} FileRefsAppend(lib: Library, key: Text, path: Path, ls: seq<Located>, l: Located)
    ensures FileRefs(lib, key, path, ls + [l])
         == FileRefs(lib, key, path, ls) + OneRef(LineRef(lib, key, path, l.offset, |l.text|, l.text))
  {
    hide LineRef, OneRef;
    if ls == [] {
      assert ls + [l] == [l] && FileRefs(lib, key, path, [l][1..]) == multiset{};
    } else {
      assert (ls + [l])[1..] == ls[1..] + [l];
      FileRefsAppend(lib, key, path, ls[1..], l);
    }
  }

  /** A segment's references name that segment. */
  lemma {:induction false} FileRefsPath(lib: Library, key: Text, path: Path, ls: seq<Located>)
    ensures forall r :: r in FileRefs(lib, key, path, ls) ==> r.path == path
  {
    if ls != [] {
      FileRefsPath(lib, key, path, ls[1..]);
    }
  }

  lemma {:induction false} BackfillAdds(lib: Library, key: Text, path: Path, ls: seq<Located>, kf: KeyFiles)
    requires Good(lib, kf)
    requires forall i :: 0 <= i < |ls| ==> Indexable(lib, key, path, ls[i].text)
    ensures Good(lib, Backfilled(lib, key, path, ls, kf))
    ensures AllRefs(Backfilled(lib, key, path, ls, kf), 256) == AllRefs(kf, 256) + FileRefs(lib, key, path, ls)
  {
    hide AddRef, Good, AllRefs, OneRef;
    if ls != [] {
      var ref := LineRef(lib, key, path, ls[0].offset, |ls[0].text|, ls[0].text);
      AddedOne(lib, kf, ref);
      BackfillAdds(lib, key, path, ls[1..], AddRef(lib, kf, ref));
    }
  }

  /** How often a plain scan of the store meets this reference. */
  function Expected(lib: Library, key: Text, logs: Files, r: Reference): nat {
    if r.path in logs then FileRefs(lib, key, r.path, LinesOf(logs, r.path))[r] else 0
  }

  /** Every segment of the store, once each. */
  ghost predicate Enumerates(logs: Files, listing: seq<Path>) {
    && (forall p :: p in logs <==> p in listing)
    && (forall i, j :: 0 <= i < j < |listing| ==> listing[i] != listing[j])
  }

  lemma {:induction false} RebuildAdds(lib: Library, key: Text, logs: Files, listing: seq<Path>, kf: KeyFiles)
    requires Good(lib, kf) && GoodLogs(lib, key, logs)
    requires forall p :: p in listing ==> p in logs
    requires forall i, j :: 0 <= i < j < |listing| ==> listing[i] != listing[j]
    ensures Good(lib, Rebuilt(lib, key, logs, listing, kf))
    ensures forall r :: AllRefs(Rebuilt(lib, key, logs, listing, kf), 256)[r]
                     == AllRefs(kf, 256)[r] + if r.path in listing then Expected(lib, key, logs, r) else 0
  {
    hide Backfilled, Good, AllRefs, FileRefs, LinesFrom, Indexable;
    if listing != [] {
      var path := listing[0];
      var ls := LinesOf(logs, path);
      forall i | 0 <= i < |ls|
        ensures Indexable(lib, key, path, ls[i].text)
      {
        assert ls[i] in LinesOf(logs, path);
      }
      BackfillAdds(lib, key, path, ls, kf);
      FileRefsPath(lib, key, path, ls);
      RebuildAdds(lib, key, logs, listing[1..], Backfilled(lib, key, path, ls, kf));
      assert forall p :: p in listing <==> p == path || p in listing[1..];
    }
  }

  // ----- Runs of atomic steps -----

  datatype Atomic =
    | WriteAndObserve(path: Path, line: Text)
    | Tear(path: Path, line: Text, n: nat)
    | CreateKey(listing: seq<Path>)
    | DeleteKey
  {
    predicate Appends() {
      WriteAndObserve? || Tear?
    }

    /** What goes to the end of the file. */
    function Piece(): Text
      requires Appends()
    {
      match this
      case WriteAndObserve(_, line) => Stored(Capped(line))
      case Tear(_, line, n) => Torn(line, n)
    }
  }

  datatype Index = Index(logs: Files, kf: KeyFiles, live: bool)

  /** The reference a live index is given, if any, for what goes to `b`'s end. */
  function LiveRef(lib: Library, key: Text, a: Atomic, b: Text): Option<Reference>
    requires a.Appends()
  {
    match a
    case WriteAndObserve(path, line) => LineRef(lib, key, path, |b|, |Capped(line)|, line)
    case Tear(_, _, _) => None
  }

  ghost predicate AtomicStep(lib: Library, key: Text, s: Index, a: Atomic, t: Index) {
    match a
    case CreateKey(listing) =>
      && Enumerates(s.logs, listing)
      && t == if s.live then s else s.(kf := Rebuilt(lib, key, s.logs, listing, map[]), live := true)
    case DeleteKey =>
      t == s.(kf := map[], live := false)
    case _ =>
      && Plain(Capped(a.line)) && Appendable(lib, key, s.logs, a.path, a.Piece())
      && (a.WriteAndObserve? ==> Indexable(lib, key, a.path, a.line))
      && t == s.(logs := Appended(s.logs, a.path, a.Piece()),
                 kf := if s.live then AddRef(lib, s.kf, LiveRef(lib, key, a, BytesOf(s.logs, a.path))) else s.kf)
  }

  ghost predicate Sound(lib: Library, key: Text, s: Index) {
    GoodLogs(lib, key, s.logs) && Good(lib, s.kf)
  }

  ghost predicate Exact(lib: Library, key: Text, s: Index) {
    s.live ==> forall r :: AllRefs(s.kf, 256)[r] == Expected(lib, key, s.logs, r)
  }

  // ----- When one step keeps the index exact -----

  /** The reference a scan makes of the last line of `b` with `x` after it. */
  function LastRef(lib: Library, key: Text, path: Path, b: Text, x: Text): multiset<Reference> {
    var last := Unfinished(b) + x;
    if last == [] then multiset{} else OneRef(LineRef(lib, key, path, TailStart(b), |TrimEol(last)|, TrimEol(last)))
  }

  /** The scan gains just the reference that the live index is given. */
  predicate Even(lib: Library, key: Text, logs: Files, a: Atomic) {
    a.Appends() ==>
      var b := BytesOf(logs, a.path);
      LastRef(lib, key, a.path, b, []) + OneRef(LiveRef(lib, key, a, b)) == LastRef(lib, key, a.path, b, a.Piece())
  }

  lemma PieceIsOneLine(a: Atomic)
    requires a.Appends() && Plain(Capped(a.line))
    ensures OneLine(a.Piece())
  {
    hide Capped;
    StoredIsOneLine(Capped(a.line));
    if a.Tear? {
      TornIsOneLine(a.line, a.n);
    }
  }

  /** What a scan finds in a file: the references before its last line, and the
      last line's. */
  lemma FileRefsSplit(lib: Library, key: Text, path: Path, b: Text, x: Text)
    requires OneLine(x)
    ensures FileRefs(lib, key, path, LinesFrom(b + x, 0))
         == FileRefs(lib, key, path, LinesFrom(b[..TailStart(b)], 0)) + LastRef(lib, key, path, b, x)
  {
    hide LinesFrom, TailStart, TrimEol, LineRef, OneRef, FileRefs, Unfinished;
    var s, last := TailStart(b), Unfinished(b) + x;
    var before := LinesFrom(b[..s], 0);
    AppendPiece(b, x);
    if last == [] {
      assert before + [] == before;
    } else {
      FileRefsAppend(lib, key, path, before, Located(s, TrimEol(last)));
    }
  }

  /** A step appends in a sound state: what it adds to the index and to a scan. */
  lemma AppendEffect(lib: Library, key: Text, s: Index, a: Atomic, t: Index)
    requires Sound(lib, key, s) && AtomicStep(lib, key, s, a, t) && a.Appends()
    ensures Sound(lib, key, t)
    ensures s.live ==> AllRefs(t.kf, 256) == AllRefs(s.kf, 256) + OneRef(LiveRef(lib, key, a, BytesOf(s.logs, a.path)))
    ensures forall r: Reference :: r.path != a.path ==> Expected(lib, key, t.logs, r) == Expected(lib, key, s.logs, r)
    ensures var b := BytesOf(s.logs, a.path);
            forall r: Reference :: r.path == a.path ==>
              Expected(lib, key, s.logs, r) + LastRef(lib, key, a.path, b, a.Piece())[r]
              == Expected(lib, key, t.logs, r) + LastRef(lib, key, a.path, b, [])[r]
  {
    hide LinesFrom, GoodLogs, Good, AllRefs, FileRefs, AddRef, Capped, Appendable, LastRef, Indexable, TailStart,
         OneRef;
    var b, x := BytesOf(s.logs, a.path), a.Piece();
    PieceIsOneLine(a);
    PieceLines(lib, key, s.logs, a.path, x);
    if s.live {
      LiveRefFits(lib, key, a, b);
      AddedOne(lib, s.kf, LiveRef(lib, key, a, b));
    }
    FileRefsSplit(lib, key, a.path, b, x);
    FileRefsSplit(lib, key, a.path, b, []);
    assert b + [] == b;
    NothingExpected(lib, key, s.logs, a.path);
  }

  lemma LiveRefFits(lib: Library, key: Text, a: Atomic, b: Text)
    requires a.Appends() && (a.WriteAndObserve? ==> Indexable(lib, key, a.path, a.line))
    ensures var ref := LiveRef(lib, key, a, b); ref.Some? ==> Fits(ref.value)
  {
    hide Capped;
  }

  lemma NothingExpected(lib: Library, key: Text, logs: Files, path: Path)
    ensures path !in logs ==> FileRefs(lib, key, path, LinesOf(logs, path)) == multiset{}
  {
  }

  /** All references in play name the file that is written. */
  lemma OwnPath(lib: Library, key: Text, a: Atomic, b: Text, x: Text, r: Reference)
    requires a.Appends() && r.path != a.path
    ensures LastRef(lib, key, a.path, b, x)[r] == 0 && OneRef(LiveRef(lib, key, a, b))[r] == 0
  {
    hide TrimEol, TailStart, Capped;
  }

  /** One write, successful or not, on an exact live index: it stays exact if
      and only if the scan gains just the reference that the index is given. */
  lemma StaysExactExactly(lib: Library, key: Text, s: Index, a: Atomic, t: Index)
    requires Sound(lib, key, s) && Exact(lib, key, s) && s.live && AtomicStep(lib, key, s, a, t) && a.Appends()
    ensures Sound(lib, key, t) && (Exact(lib, key, t) <==> Even(lib, key, s.logs, a))
  {
    hide AllRefs, Expected, LastRef, LiveRef, OneRef, Sound, Capped, Appendable, AddRef;
    AppendEffect(lib, key, s, a, t);
    var b := BytesOf(s.logs, a.path);
    var had, now := LastRef(lib, key, a.path, b, []), LastRef(lib, key, a.path, b, a.Piece());
    var given := OneRef(LiveRef(lib, key, a, b));
    forall r: Reference
      ensures AllRefs(t.kf, 256)[r] == Expected(lib, key, t.logs, r) <==> (had + given)[r] == now[r]
    {
      if r.path != a.path {
        OwnPath(lib, key, a, b, [], r);
        OwnPath(lib, key, a, b, a.Piece(), r);
      }
    }
    SameCounts(had + given, now);
  }

  lemma SameCounts(m: multiset<Reference>, n: multiset<Reference>)
    ensures m == n <==> forall r :: m[r] == n[r]
  {
  }

  // ----- The condition, case by case -----

  /** After a file without an unfinished line, a write is even if and only if
      capping changed neither the line's value nor the time that goes with it. */
  lemma EvenAfterWhole(lib: Library, key: Text, logs: Files, path: Path, line: Text)
    requires Whole(BytesOf(logs, path)) && Plain(Capped(line))
    ensures Even(lib, key, logs, WriteAndObserve(path, line)) <==> Faithful(lib, key, line)
  {
    hide Capped, TrimEol, LineRef, OneRef, Faithful;
    TrimOne(Capped(line));
    assert [] + Stored(Capped(line)) == Stored(Capped(line));
    SameRefExactly(lib, key, path, |BytesOf(logs, path)|, |Capped(line)|, line);
  }

  lemma SameRefExactly(lib: Library, key: Text, path: Path, at: nat, length: nat, line: Text)
    ensures OneRef(LineRef(lib, key, path, at, length, line))
            == OneRef(LineRef(lib, key, path, at, length, Capped(line)))
       <==> Faithful(lib, key, line)
  {
    hide Capped;
    var a, b := LineRef(lib, key, path, at, length, line), LineRef(lib, key, path, at, length, Capped(line));
    assert a.Some? ==> Canonical(a.value) in OneRef(a);
    assert b.Some? ==> Canonical(b.value) in OneRef(b);
  }

  /** After an unfinished line, it is even if and only if none of that line, the
      new one, and the two run together carries the key. */
  lemma EvenAfterTorn(lib: Library, key: Text, logs: Files, path: Path, line: Text)
    requires var b := BytesOf(logs, path); !Whole(b) && |b| < TWO_63
    requires Plain(Capped(line)) && Capped(line) != [] && |Unfinished(BytesOf(logs, path)) + Capped(line)| < TWO_32
    ensures var rest := Unfinished(BytesOf(logs, path));
            Even(lib, key, logs, WriteAndObserve(path, line)) <==>
              && lib.valueOf(TrimEol(rest), key).None? && lib.valueOf(line, key).None?
              && lib.valueOf(rest + Capped(line), key).None?
  {
    hide Capped, TrimEol, LineRef, Canonical, OneRef, TailStart;
    var b, text := BytesOf(logs, path), Capped(line);
    var rest := Unfinished(b);
    TrimJoined(rest, text);
    assert rest + [] == rest;
    var had := LineRef(lib, key, path, TailStart(b), |TrimEol(rest)|, TrimEol(rest));
    var given := LineRef(lib, key, path, |b|, |text|, line);
    var now := LineRef(lib, key, path, TailStart(b), |rest + text|, rest + text);
    LineRefParts(lib, key, path, TailStart(b), |TrimEol(rest)|, TrimEol(rest));
    LineRefParts(lib, key, path, |b|, |text|, line);
    LineRefParts(lib, key, path, TailStart(b), |rest + text|, rest + text);
    ThreeRefs(had, given, now);
  }

  lemma TrimJoined(rest: Text, text: Text)
    requires Plain(text) && text != []
    ensures TrimEol(rest + Stored(text)) == rest + text
  {
    var raw := rest + Stored(text);
    assert raw[..|raw| - 1] == rest + text;
    assert (rest + text)[|rest + text| - 1] == text[|text| - 1];
    assert text[|text| - 1] in text;
  }

  lemma ThreeRefs(had: Option<Reference>, given: Option<Reference>, now: Option<Reference>)
    requires had.Some? && now.Some? ==> Canonical(had.value) != Canonical(now.value)
    requires given.Some? && now.Some? ==> Canonical(given.value) != Canonical(now.value)
    ensures OneRef(had) + OneRef(given) == OneRef(now) <==> had == given == now == None
  {
    hide Canonical;
    var all := OneRef(had) + OneRef(given);
    assert |all| == (if had.Some? then 1 else 0) + if given.Some? then 1 else 0;
    assert now.Some? ==> OneRef(now)[Canonical(now.value)] == 1 && all[Canonical(now.value)] == 0;
    assert now.None? ==> |OneRef(now)| == 0;
  }

  /** What a line's reference is, if it has one. */
  lemma LineRefParts(lib: Library, key: Text, path: Path, offset: nat, length: nat, line: Text)
    requires offset < TWO_63 && length < TWO_32
    ensures var ref := LineRef(lib, key, path, offset, length, line);
            && (ref.Some? <==> lib.valueOf(line, key).Some?)
            && (ref.Some? ==> Canonical(ref.value).offset == offset && Canonical(ref.value).length == length)
  {
  }

  /** A failed write is even on a file without an unfinished line if and only if
      what it leaves carries no key. */
  lemma EvenTear(lib: Library, key: Text, logs: Files, path: Path, line: Text, n: nat)
    requires Whole(BytesOf(logs, path)) && Torn(line, n) != []
    ensures Even(lib, key, logs, Atomic.Tear(path, line, n)) <==> lib.valueOf(TrimEol(Torn(line, n)), key).None?
  {
    hide Torn, TrimEol, Canonical;
    var x := Torn(line, n);
    assert [] + x == x;
    var now := LineRef(lib, key, path, |BytesOf(logs, path)|, |TrimEol(x)|, TrimEol(x));
    if now.Some? {
      assert Canonical(now.value) in OneRef(now);
    }
  }

  // ----- Whole runs -----

  lemma NotExpected(lib: Library, key: Text, logs: Files, r: Reference)
    ensures r.path !in logs ==> Expected(lib, key, logs, r) == 0
  {
  }

  lemma {:induction false} NoRefs(shards: nat)
    requires shards <= 256
    ensures AllRefs(map[], shards) == multiset{}
  {
    if shards > 0 {
      NoRefs(shards - 1);
    }
  }

  lemma RebuildFromNothing(lib: Library, key: Text, logs: Files, listing: seq<Path>)
    requires GoodLogs(lib, key, logs) && Enumerates(logs, listing)
    ensures Good(lib, Rebuilt(lib, key, logs, listing, map[]))
    ensures forall r :: AllRefs(Rebuilt(lib, key, logs, listing, map[]), 256)[r] == Expected(lib, key, logs, r)
  {
    hide GoodLogs, Expected, Rebuilt, AllRefs, ScanFile;
    RebuildAdds(lib, key, logs, listing, map[]);
    NoRefs(256);
    forall r: Reference
      ensures r.path !in listing ==> Expected(lib, key, logs, r) == 0
    {
      NotExpected(lib, key, logs, r);
    }
  }

  /** A step of a sound index; it stays exact if the step is even. */
  lemma AtomicKeeps(lib: Library, key: Text, s: Index, a: Atomic, t: Index)
    requires Sound(lib, key, s) && AtomicStep(lib, key, s, a, t)
    ensures Sound(lib, key, t)
    ensures Exact(lib, key, s) && Even(lib, key, s.logs, a) ==> Exact(lib, key, t)
  {
    if a.Appends() {
      hide Exact, AtomicStep, Even, Sound;
      AppendEffect(lib, key, s, a, t);
      if Exact(lib, key, s) && s.live {
        StaysExactExactly(lib, key, s, a, t);
      }
      NotLive(lib, key, s, a, t);
    } else if a.CreateKey? {
      hide Rebuilt, GoodLogs, Expected, AllRefs, Good, Enumerates;
      if !s.live {
        RebuildFromNothing(lib, key, s.logs, a.listing);
      }
    } else {
      hide GoodLogs, Expected;
    }
  }

  lemma NotLive(lib: Library, key: Text, s: Index, a: Atomic, t: Index)
    requires AtomicStep(lib, key, s, a, t) && a.Appends()
    ensures t.live == s.live && (!t.live ==> Exact(lib, key, t))
  {
    hide Expected, AllRefs, Appendable, Capped, AddRef;
  }

  ghost predicate AtomicRun(lib: Library, key: Text, states: seq<Index>, actions: seq<Atomic>) {
    && |states| == |actions| + 1
    && states[0].kf == map[] && !states[0].live && GoodLogs(lib, key, states[0].logs)
    && forall i :: 0 <= i < |actions| ==> AtomicStep(lib, key, states[i], actions[i], states[i + 1])
  }

  /** Over any run the shards stay well formed; and if every step is even, the
      references are in the end exactly those a scan of the store gives. */
  lemma {:induction false} AtomicRunExact(lib: Library, key: Text, states: seq<Index>, actions: seq<Atomic>)
    requires AtomicRun(lib, key, states, actions)
    ensures Sound(lib, key, states[|actions|])
    ensures (forall i :: 0 <= i < |actions| ==> Even(lib, key, states[i].logs, actions[i])) ==>
              Exact(lib, key, states[|actions|])
  {
    hide AtomicStep, GoodLogs, AllRefs, Expected, Even;
    var n := |actions|;
    if n > 0 {
      hide Exact, Sound;
      AtomicRunExact(lib, key, states[..n], actions[..n - 1]);
      AtomicKeeps(lib, key, states[n - 1], actions[n - 1], states[n]);
    }
  }

  lemma RebuildIsExpected(lib: Library, key: Text, s: Index, listing: seq<Path>)
    requires Sound(lib, key, s) && s.live && Enumerates(s.logs, listing)
    ensures Exact(lib, key, s) <==> AllRefs(s.kf, 256) == AllRefs(Rebuilt(lib, key, s.logs, listing, map[]), 256)
  {
    hide GoodLogs, Expected, Rebuilt, AllRefs, Good;
    RebuildFromNothing(lib, key, s.logs, listing);
    SameCounts(AllRefs(s.kf, 256), AllRefs(Rebuilt(lib, key, s.logs, listing, map[]), 256));
  }

  /** After any run of even steps the index's references are, as a multiset,
      exactly those of rebuilding it now, in whatever order it lists segments. */
  lemma LiveEqualsRebuild(lib: Library, key: Text, states: seq<Index>, actions: seq<Atomic>, listing: seq<Path>)
    requires AtomicRun(lib, key, states, actions) && states[|actions|].live
    requires Enumerates(states[|actions|].logs, listing)
    requires forall i :: 0 <= i < |actions| ==> Even(lib, key, states[i].logs, actions[i])
    ensures AllRefs(states[|actions|].kf, 256)
         == AllRefs(Rebuilt(lib, key, states[|actions|].logs, listing, map[]), 256)
  {
    hide AtomicStep, GoodLogs, Even, Rebuilt, AllRefs, Good;
    AtomicRunExact(lib, key, states, actions);
    RebuildIsExpected(lib, key, states[|actions|], listing);
  }

  /** The next write, after such a run: index and rebuild still agree if and
      only if it is even. */
  lemma NextWriteAgreesExactly(lib: Library, key: Text, states: seq<Index>, actions: seq<Atomic>, a: Atomic, t: Index,
                               listing: seq<Path>)
    requires AtomicRun(lib, key, states, actions) && states[|actions|].live
    requires forall i :: 0 <= i < |actions| ==> Even(lib, key, states[i].logs, actions[i])
    requires a.Appends() && AtomicStep(lib, key, states[|actions|], a, t) && Enumerates(t.logs, listing)
    ensures AllRefs(t.kf, 256) == AllRefs(Rebuilt(lib, key, t.logs, listing, map[]), 256)
       <==> Even(lib, key, states[|actions|].logs, a)
  {
    hide GoodLogs, Even, Rebuilt, AllRefs, Good, Expected, Sound, Exact;
    var s := states[|actions|];
    AtomicRunExact(lib, key, states, actions);
    StaysExactExactly(lib, key, s, a, t);
    NotLive(lib, key, s, a, t);
    RebuildIsExpected(lib, key, t, listing);
  }

  /** Without failed writes, and with lines that give the reference their stored
      form gives, every step is even. */
  lemma {:induction false} CleanRunIsEven(lib: Library, key: Text, states: seq<Index>, actions: seq<Atomic>)
    requires AtomicRun(lib, key, states, actions)
    requires forall p :: p in states[0].logs ==> Whole(states[0].logs[p].bytes)
    requires forall a :: a in actions ==> !a.Tear? && (a.WriteAndObserve? ==> Faithful(lib, key, a.line))
    ensures forall p :: p in states[|actions|].logs ==> Whole(states[|actions|].logs[p].bytes)
    ensures forall i :: 0 <= i < |actions| ==> Even(lib, key, states[i].logs, actions[i])
  {
    hide GoodLogs, Even, Faithful, Rebuilt, Enumerates, Capped, Appendable, AddRef, LiveRef, Indexable;
    var n := |actions|;
    if n > 0 {
      var s, a := states[n - 1], actions[n - 1];
      CleanRunIsEven(lib, key, states[..n], actions[..n - 1]);
      assert AtomicStep(lib, key, s, a, states[n]) && a in actions;
      CleanStepIsEven(lib, key, s, a);
    }
  }

  lemma CleanStepIsEven(lib: Library, key: Text, s: Index, a: Atomic)
    requires a.WriteAndObserve? ==>
               Plain(Capped(a.line)) && Faithful(lib, key, a.line) && Whole(BytesOf(s.logs, a.path))
    requires !a.Tear?
    ensures Even(lib, key, s.logs, a)
  {
    hide Capped;
    if a.WriteAndObserve? {
      EvenAfterWhole(lib, key, s.logs, a.path, a.line);
    }
  }

  /** A run after which index and rebuild differ: a failed write leaves one byte,
      and the next line, which carries the key, runs on from it. */
  lemma TornThenWritten() returns (lib: Library, key: Text, states: seq<Index>, actions: seq<Atomic>,
                                   listing: seq<Path>)
    ensures AtomicRun(lib, key, states, actions) && states[|actions|].live
    ensures Enumerates(states[|actions|].logs, listing)
    ensures AllRefs(states[|actions|].kf, 256)
         != AllRefs(Rebuilt(lib, key, states[|actions|].logs, listing, map[]), 256)
  {
    hide LinesFrom, AllRefs, Rebuilt, AtomicStep, Even, GoodLogs;
    key := [];
    lib := Library((text, _) => if text == [0x42] then Some([]) else None, _ => None, _ => 0);
    var path := Path(Dir([], [], []), []);
    listing := [path];
    var s0, s1 := Index(map[], map[], false), Index(map[], map[], true);
    var s2 := Index(map[path := File([0x41], 0)], map[], true);
    var create, tear, write := CreateKey([]), Atomic.Tear(path, [0x41], 1), WriteAndObserve(path, [0x42]);
    FirstSteps(lib, key, path, s0, s1, s2);
    var s3 := LastStep(lib, key, path, s2);
    assert GoodLogs(lib, key, s0.logs) by { NoLogsGood(lib, key); }
    assert AtomicRun(lib, key, [s0, s1, s2], [create, tear]);
    NextWriteAgreesExactly(lib, key, [s0, s1, s2], [create, tear], write, s3, listing);
    states, actions := [s0, s1, s2, s3], [create, tear, write];
  }

  lemma NoLogsGood(lib: Library, key: Text)
    ensures GoodLogs(lib, key, map[])
  {
  }

  lemma FirstSteps(lib: Library, key: Text, path: Path, s0: Index, s1: Index, s2: Index)
    requires s0 == Index(map[], map[], false) && s1 == Index(map[], map[], true)
    requires s2 == Index(map[path := File([0x41], 0)], map[], true)
    requires lib.valueOf([0x41], key) == None
    ensures AtomicStep(lib, key, s0, CreateKey([]), s1) && Even(lib, key, s0.logs, CreateKey([]))
    ensures AtomicStep(lib, key, s1, Atomic.Tear(path, [0x41], 1), s2)
    ensures Even(lib, key, s1.logs, Atomic.Tear(path, [0x41], 1))
  {
    var line: Text := [0x41];
    assert Torn(line, 1) == line;
    assert [] + line == line && TrimEol(line) == line && Unfinished([]) == [];
    EvenTear(lib, key, s1.logs, path, line, 1);
  }

  lemma LastStep(lib: Library, key: Text, path: Path, s: Index) returns (t: Index)
    requires s == Index(map[path := File([0x41], 0)], map[], true)
    requires path == Path(Dir([], [], []), []) && lib.valueOf([0x42], key) == Some([])
    requires lib.valueOf([0x41, 0x42], key) == None
    ensures AtomicStep(lib, key, s, WriteAndObserve(path, [0x42]), t) && t.live && t.logs.Keys == {path}
    ensures !Even(lib, key, s.logs, WriteAndObserve(path, [0x42]))
  {
    hide AddRef, LineRef, Even, TrimEol;
    var b, line: Text := [0x41], [0x42];
    var write := WriteAndObserve(path, line);
    t := s.(logs := Appended(s.logs, path, Stored(line)), kf := AddRef(lib, s.kf, LiveRef(lib, key, write, b)));
    assert TailStart(b) == 0 by { TailGoesOn([], b); assert [] + b == b; }
    assert Unfinished(b) == b;
    TrimJoined(b, line);
    assert b + line == [0x41, 0x42];
    EvenAfterTorn(lib, key, s.logs, path, line);
  }
}
