/** One index key's shard files: what appending and compacting do to them. */
module IndexShards {
  import opened Bytes
  import opened Writer
  import opened ShardCodec
  import opened Seqs

  /** The shard files of one key, by shard number. */
  type KeyFiles = map<byte, Text>

  /** What the index takes from libraries: the value of a JSON key in a stored
      line, the time a line begins with, and the first byte of a value's hash. */
  datatype Library = Library(valueOf: (Text, Text) -> Option<Text>, stampOf: Text -> Option<Time>,
                             shardOf: Text -> byte)

  function ScanOf(kf: KeyFiles, shard: byte): Scan {
    if shard in kf then ScanFile(kf[shard]) else Scan([], true)
  }

  function RefsOf(kf: KeyFiles, shard: byte): seq<Reference> {
    ScanOf(kf, shard).refs
  }

  // ----- What scanning yields -----

  lemma DecodedRecord(file: Text, pos: nat)
    requires pos <= |file| && ScanStep(file, pos).Visit?
    ensures var ref := ScanStep(file, pos).ref; Fits(ref) && Canonical(ref) == ref
  {
  }

  lemma {:induction false} ScannedRefs(file: Text, pos: nat)
    requires pos <= |file|
    ensures forall r :: r in ScanFrom(file, pos).refs ==> Fits(r) && Canonical(r) == r
    decreases |file| - pos
  {
    hide ScanStep, Fits, Canonical;
    match ScanStep(file, pos) {
      case Stop(_) =>
      case Visit(ref, next) =>
        DecodedRecord(file, pos);
        ScannedRefs(file, next);
    }
  }

  lemma CanonicalRefs(kf: KeyFiles, shard: byte)
    ensures forall r :: r in RefsOf(kf, shard) ==> Fits(r) && Canonical(r) == r
  {
    hide ScanFrom, Fits, Canonical;
    if shard in kf && |kf[shard]| >= 4 {
      ScannedRefs(kf[shard], 4);
    }
  }

  lemma AllCanonicalSame(refs: seq<Reference>)
    requires forall r :: r in refs ==> Canonical(r) == r
    ensures AllCanonical(refs) == refs
  {
  }

  // ----- Well-formed shards -----

  /** The file is the magic and whole records, all of this shard's values. */
  ghost predicate GoodShard(lib: Library, shard: byte, file: Text) {
    var refs := ScanFile(file).refs;
    && file == SHARD_MAGIC + Records(refs)
    && forall r :: r in refs ==> lib.shardOf(r.value) == shard
  }

  ghost predicate Good(lib: Library, kf: KeyFiles) {
    forall s :: s in kf ==> GoodShard(lib, s, kf[s])
  }

  /** Every reference the files hold is in the shard of its value. */
  ghost predicate Sharded(lib: Library, kf: KeyFiles) {
    forall s: byte, r :: r in RefsOf(kf, s) ==> lib.shardOf(r.value) == s
  }

  lemma GoodIsSharded(lib: Library, kf: KeyFiles)
    requires Good(lib, kf)
    ensures Sharded(lib, kf)
  {
    hide ScanFile, Records;
  }

  /** A file of encoded references scans back to them. */
  lemma WrittenShard(lib: Library, shard: byte, refs: seq<Reference>)
    requires forall r :: r in refs ==> Fits(r) && Canonical(r) == r && lib.shardOf(r.value) == shard
    ensures var file := SHARD_MAGIC + Records(refs);
            ScanFile(file) == Scan(refs, true) && GoodShard(lib, shard, file)
  {
    hide ScanFile, Records, Fits, Canonical;
    ScanRoundTrip(refs);
    AllCanonicalSame(refs);
  }

  // ----- Appending (appendReferenceLocked) -----

  function AppendTo(lib: Library, kf: KeyFiles, ref: Reference): KeyFiles {
    var s := lib.shardOf(ref.value);
    var file := if s in kf then kf[s] else [];
    match EncodeReference(ref, |file| == 0)
    case None => kf[s := file]
    case Some(record) => kf[s := file + record]
  }

  lemma {:induction false} RecordsAppend(refs: seq<Reference>, ref: Reference)
    ensures Records(refs + [ref]) == Records(refs) + Record(ref)
  {
    hide Record;
    if refs == [] {
      assert refs + [ref] == [ref] && Records([ref][1..]) == [];
    } else {
      assert (refs + [ref])[1..] == refs[1..] + [ref];
      RecordsAppend(refs[1..], ref);
    }
  }

  lemma SameRecord(ref: Reference)
    ensures Record(Canonical(ref)) == Record(ref)
  {
    assert Numbers(Canonical(ref)) == Numbers(ref);
  }

  /** Appending adds the reference, as stored, at the end of its value's shard
      and keeps every shard well formed. */
  lemma AppendAdds(lib: Library, kf: KeyFiles, ref: Reference)
    requires Good(lib, kf) && Fits(ref)
    ensures Good(lib, AppendTo(lib, kf, ref))
    ensures forall s: byte :: RefsOf(AppendTo(lib, kf, ref), s)
              == if s == lib.shardOf(ref.value) then RefsOf(kf, s) + [Canonical(ref)] else RefsOf(kf, s)
  {
    hide ScanFile, Records, Record, Canonical;
    var s := lib.shardOf(ref.value);
    var refs := RefsOf(kf, s);
    CanonicalRefs(kf, s);
    CanonicalOnce(ref);
    SameRecord(ref);
    RecordsAppend(refs, Canonical(ref));
    var all := refs + [Canonical(ref)];
    assert AppendTo(lib, kf, ref)[s] == SHARD_MAGIC + Records(all) by {
      if s in kf {
        assert kf[s] == SHARD_MAGIC + Records(refs);
        assert SHARD_MAGIC + Records(refs) + Record(ref) == SHARD_MAGIC + (Records(refs) + Record(ref));
      } else {
        EmptyRecords();
        assert [] + (SHARD_MAGIC + Record(ref)) == SHARD_MAGIC + ([] + Record(ref));
      }
    }
    WrittenShard(lib, s, all);
  }

  lemma EmptyRecords()
    ensures Records([]) == []
  {
  }

  lemma CanonicalOnce(ref: Reference)
    ensures Canonical(Canonical(ref)) == Canonical(ref)
    ensures Canonical(ref).value == ref.value && (Fits(ref) ==> Fits(Canonical(ref)))
  {
  }

  // ----- Availability and compaction -----

  /** referenceAvailable: the file exists and is long enough, in int64 terms. */
  predicate Available(logs: Files, ref: Reference) {
    && ref.path in logs
    && ref.offset >= 0
    && ToInt64(ref.offset + ref.length) <= |logs[ref.path].bytes|
  }

  function AvailableRefs(logs: Files, kf: KeyFiles, shard: byte): seq<Reference> {
    Filter(r => Available(logs, r), RefsOf(kf, shard))
  }

  /** What compacting does to one shard that scans without an error. */
  function CompactShard(logs: Files, kf: KeyFiles, shard: byte): KeyFiles {
    var kept := AvailableRefs(logs, kf, shard);
    if kept == [] then kf - {shard} else kf[shard := SHARD_MAGIC + Records(kept)]
  }

  /** Compact's pass over the shards of one key from `shard` on: it stops at
      the first existing shard that does not scan. */
  function CompactFrom(logs: Files, kf: KeyFiles, shard: nat): (KeyFiles, bool)
    decreases 256 - shard
  {
    if shard >= 256 then (kf, true)
    else if shard !in kf then CompactFrom(logs, kf, shard + 1)
    else if !ScanOf(kf, shard).ok then (kf, false)
    else CompactFrom(logs, CompactShard(logs, kf, shard), shard + 1)
  }

  /** A scan that keeps the references whose lines are still there. */
  ghost predicate CompactedTo(logs: Files, kf: KeyFiles, after: KeyFiles, shard: byte) {
    ScanOf(kf, shard).ok && ScanOf(after, shard) == Scan(AvailableRefs(logs, kf, shard), true)
  }

  ghost predicate SameShard(kf: KeyFiles, after: KeyFiles, shard: byte) {
    (shard in after <==> shard in kf) && (shard in kf ==> after[shard] == kf[shard])
  }

  lemma CompactOne(lib: Library, logs: Files, kf: KeyFiles, shard: byte)
    requires shard in kf && ScanOf(kf, shard).ok
    ensures var after := CompactShard(logs, kf, shard);
            && CompactedTo(logs, kf, after, shard)
            && (forall s: byte :: s != shard ==> SameShard(kf, after, s))
            && (Sharded(lib, kf) ==> Sharded(lib, after))
            && (shard in after ==> RefsOf(after, shard) != [])
            && (shard in after && Sharded(lib, kf) ==> GoodShard(lib, shard, after[shard]))
  {
    hide ScanFile, Records, Canonical, Fits;
    var kept := AvailableRefs(logs, kf, shard);
    CanonicalRefs(kf, shard);
    ScanRoundTrip(kept);
    AllCanonicalSame(kept);
    var after := CompactShard(logs, kf, shard);
    forall s: byte, r | Sharded(lib, kf) && r in RefsOf(after, s)
      ensures lib.shardOf(r.value) == s
    {
      assert s != shard ==> SameShard(kf, after, s);
      assert r in RefsOf(kf, s);
    }
  }

  /** The pass compacts every shard from `shard` on if all of them scan, and
      otherwise stops with every shard either compacted or as it was. */
  lemma {:induction false} CompactEffect(lib: Library, logs: Files, kf: KeyFiles, shard: nat)
    ensures var r := CompactFrom(logs, kf, shard);
            && (r.1 <==> forall s: byte :: shard <= s ==> ScanOf(kf, s).ok)
            && (forall s: byte :: s < shard ==> SameShard(kf, r.0, s))
            && (forall s: byte :: SameShard(kf, r.0, s) || CompactedTo(logs, kf, r.0, s))
            && (r.1 ==> forall s: byte :: shard <= s ==> CompactedTo(logs, kf, r.0, s))
    decreases 256 - shard
  {
    hide ScanFile, Records, Canonical, Fits;
    if shard < 256 {
      if shard !in kf {
        CompactEffect(lib, logs, kf, shard + 1);
      } else if ScanOf(kf, shard).ok {
        var next := CompactShard(logs, kf, shard);
        CompactOne(lib, logs, kf, shard);
        CompactEffect(lib, logs, next, shard + 1);
        assert SameShard(next, CompactFrom(logs, next, shard + 1).0, shard);
        CompactCompose(logs, kf, next, CompactFrom(logs, next, shard + 1).0, shard);
        forall s: byte | shard < s
          ensures ScanOf(next, s) == ScanOf(kf, s)
        {
          assert SameShard(kf, next, s);
        }
      }
    }
  }

  lemma CompactCompose(logs: Files, kf: KeyFiles, next: KeyFiles, after: KeyFiles, shard: byte)
    requires CompactedTo(logs, kf, next, shard) && SameShard(next, after, shard)
    requires forall s: byte :: s != shard ==> SameShard(kf, next, s)
    ensures CompactedTo(logs, kf, after, shard)
    ensures forall s: byte :: s != shard && SameShard(next, after, s) ==> SameShard(kf, after, s)
    ensures forall s: byte :: s != shard && CompactedTo(logs, next, after, s) ==> CompactedTo(logs, kf, after, s)
  {
    hide ScanFile;
    forall s: byte | s != shard
      ensures SameShard(next, after, s) ==> SameShard(kf, after, s)
      ensures CompactedTo(logs, next, after, s) ==> CompactedTo(logs, kf, after, s)
    {
      assert SameShard(kf, next, s);
    }
  }

  /** After a whole pass every shard left is well formed and not empty, so a
      torn tail is gone, and its references are in the shard of their value. */
  lemma {:induction false} CompactTidies(lib: Library, logs: Files, kf: KeyFiles, shard: nat)
    requires Sharded(lib, kf) && CompactFrom(logs, kf, shard).1
    ensures var after := CompactFrom(logs, kf, shard).0;
            && Sharded(lib, after)
            && forall s: byte :: shard <= s && s in after ==> GoodShard(lib, s, after[s]) && RefsOf(after, s) != []
    decreases 256 - shard
  {
    hide ScanFile, Records, Canonical, Fits;
    if shard < 256 {
      if shard !in kf {
        CompactTidies(lib, logs, kf, shard + 1);
        CompactEffect(lib, logs, kf, shard + 1);
        assert SameShard(kf, CompactFrom(logs, kf, shard + 1).0, shard);
      } else {
        var next := CompactShard(logs, kf, shard);
        CompactOne(lib, logs, kf, shard);
        CompactTidies(lib, logs, next, shard + 1);
        CompactEffect(lib, logs, next, shard + 1);
        assert SameShard(next, CompactFrom(logs, next, shard + 1).0, shard);
      }
    }
  }

  /** Compacting a compacted key changes nothing, byte for byte. */
  lemma CompactTwice(lib: Library, logs: Files, kf: KeyFiles)
    requires Sharded(lib, kf) && CompactFrom(logs, kf, 0).1
    ensures CompactFrom(logs, CompactFrom(logs, kf, 0).0, 0) == (CompactFrom(logs, kf, 0).0, true)
  {
    hide ScanFile, Records, Canonical, Fits;
    var after := CompactFrom(logs, kf, 0).0;
    CompactTidies(lib, logs, kf, 0);
    CompactEffect(lib, logs, kf, 0);
    forall s: byte | s in after
      ensures ScanOf(after, s).ok && AvailableRefs(logs, after, s) == RefsOf(after, s)
    {
      assert CompactedTo(logs, kf, after, s);
      FilterAll(r => Available(logs, r), RefsOf(after, s));
    }
    CompactFixed(lib, logs, after, 0);
  }

  lemma {:induction false} CompactFixed(lib: Library, logs: Files, kf: KeyFiles, shard: nat)
    requires forall s: byte :: s in kf ==>
               && GoodShard(lib, s, kf[s]) && RefsOf(kf, s) != []
               && ScanOf(kf, s).ok && AvailableRefs(logs, kf, s) == RefsOf(kf, s)
    ensures CompactFrom(logs, kf, shard) == (kf, true)
    decreases 256 - shard
  {
    hide ScanFile, Records, Canonical, Fits;
    if shard < 256 {
      if shard in kf {
        assert CompactShard(logs, kf, shard) == kf;
      }
      CompactFixed(lib, logs, kf, shard + 1);
    }
  }

  /** What is available is the same before and after, shard by shard, whether
      or not the pass got through; and so is which shards fail to scan. */
  lemma CompactChangesNothing(lib: Library, logs: Files, kf: KeyFiles, shard: byte)
    ensures var after := CompactFrom(logs, kf, 0).0;
            && AvailableRefs(logs, after, shard) == AvailableRefs(logs, kf, shard)
            && ScanOf(after, shard).ok == ScanOf(kf, shard).ok
  {
    hide ScanFile, Records, Canonical, Fits;
    var after := CompactFrom(logs, kf, 0).0;
    CompactEffect(lib, logs, kf, 0);
    if CompactedTo(logs, kf, after, shard) {
      FilterAll(r => Available(logs, r), RefsOf(after, shard));
    }
  }

  /** References stay in the shard of their value, even if the pass stops at a
      shard that does not scan. */
  lemma CompactKeepsSharded(lib: Library, logs: Files, kf: KeyFiles)
    requires Sharded(lib, kf)
    ensures Sharded(lib, CompactFrom(logs, kf, 0).0)
  {
    hide ScanFile, Records, CompactFrom;
    var after := CompactFrom(logs, kf, 0).0;
    CompactEffect(lib, logs, kf, 0);
    forall s: byte, r | r in RefsOf(after, s)
      ensures lib.shardOf(r.value) == s
    {
      assert SameShard(kf, after, s) || CompactedTo(logs, kf, after, s);
      assert r in RefsOf(kf, s);
    }
  }

  lemma GoodScans(lib: Library, kf: KeyFiles, shard: byte)
    requires Good(lib, kf)
    ensures ScanOf(kf, shard).ok
  {
    if shard in kf {
      var refs := RefsOf(kf, shard);
      CanonicalRefs(kf, shard);
      hide ScanFile, Records, Canonical, Fits;
      ScanRoundTrip(refs);
    }
  }

  /** Well-formed shards are compacted without an error, and stay so. */
  lemma CompactKeepsGood(lib: Library, logs: Files, kf: KeyFiles)
    requires Good(lib, kf)
    ensures CompactFrom(logs, kf, 0).1 && Good(lib, CompactFrom(logs, kf, 0).0)
  {
    hide ScanFile, Records, CompactFrom, Good, GoodShard, Sharded;
    forall s: byte
      ensures ScanOf(kf, s).ok
    {
      GoodScans(lib, kf, s);
    }
    GoodIsSharded(lib, kf);
    CompactEffect(lib, logs, kf, 0);
    CompactTidies(lib, logs, kf, 0);
    AllGoodShards(lib, CompactFrom(logs, kf, 0).0);
  }

  lemma AllGoodShards(lib: Library, kf: KeyFiles)
    requires forall s: byte :: s in kf ==> GoodShard(lib, s, kf[s])
    ensures Good(lib, kf)
  {
    hide GoodShard;
  }
}
