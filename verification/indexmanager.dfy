/** The index manager: creating, feeding, compacting and reading the indexes
    kept over the log store (indexes/manager.go). */
module IndexManager {
  import opened Bytes
  import opened Lines
  import opened Writer
  import opened ShardCodec
  import opened IndexShards
  import opened Seqs
  import IndexPages
  import IndexValues

  /** The reference a stored line gives `key`, if it carries the key. */
  function LineRef(lib: Library, key: Text, path: Path, offset: nat, length: nat, line: Text): Option<Reference> {
    match lib.valueOf(line, key)
    case None => None
    case Some(value) =>
      var stamp := lib.stampOf(line);
      Some(Reference(if stamp.Some? then stamp.value else ZERO_TIME, stamp.Some?, path, value,
                     ToInt64(offset), length % TWO_32))
  }

  function AddRef(lib: Library, kf: KeyFiles, ref: Option<Reference>): KeyFiles {
    match ref case None => kf case Some(r) => AppendTo(lib, kf, r)
  }

  /** The key files after a backfill of these lines of one segment. */
  function Backfilled(lib: Library, key: Text, path: Path, ls: seq<Located>, kf: KeyFiles): KeyFiles {
    if ls == [] then kf
    else
      var ref := LineRef(lib, key, path, ls[0].offset, |ls[0].text|, ls[0].text);
      Backfilled(lib, key, path, ls[1..], AddRef(lib, kf, ref))
  }

  /** The key files after a backfill of these segments in turn. */
  function Rebuilt(lib: Library, key: Text, logs: Files, listing: seq<Path>, kf: KeyFiles): KeyFiles {
    if listing == [] then kf
    else
      var path := listing[0];
      var filled := if path in logs then Backfilled(lib, key, path, LinesFrom(logs[path].bytes, 0), kf) else kf;
      Rebuilt(lib, key, logs, listing[1..], filled)
  }

  predicate KeyStart(b: byte) {
    0x41 <= b <= 0x5A || 0x61 <= b <= 0x7A || b == 0x5F
  }

  /** validIndexKey */
  predicate ValidKey(key: Text) {
    && 1 <= |key| <= 128
    && KeyStart(key[0])
    && forall i :: 0 < i < |key| ==> KeyStart(key[i]) || 0x30 <= key[i] <= 0x39 || key[i] == 0x2E || key[i] == 0x2D
  }

  /** The rewritten shard, record by record; None if nothing is retained. */
  method CompactRecords(logs: Files, refs: seq<Reference>) returns (file: Option<Text>)
    ensures var kept := Filter(r => Available(logs, r), refs);
            file == if kept == [] then None else Some(SHARD_MAGIC + Records(kept))
  {
    hide Available, Record, Records;
    var temp: Text, retained := [], 0;
    ghost var keep := r => Available(logs, r);
    ghost var kept: seq<Reference> := [];
    for i := 0 to |refs|
      invariant kept == Filter(keep, refs[..i]) && retained == |kept|
      invariant temp == if kept == [] then [] else SHARD_MAGIC + Records(kept)
    {
      assert refs[..i + 1] == refs[..i] + [refs[i]];
      FilterStep(keep, refs[..i], refs[i]);
      if Available(logs, refs[i]) {
        CompactRecordsStep(temp, kept, refs[i]);
        temp := temp + ((if retained == 0 then SHARD_MAGIC else []) + Record(refs[i]));
        kept, retained := kept + [refs[i]], retained + 1;
      }
    }
    assert refs[..|refs|] == refs;
    file := if retained == 0 then None else Some(temp);
  }

  lemma CompactRecordsStep(temp: Text, kept: seq<Reference>, ref: Reference)
    requires temp == if kept == [] then [] else SHARD_MAGIC + Records(kept)
    ensures temp + ((if kept == [] then SHARD_MAGIC else []) + Record(ref)) == SHARD_MAGIC + Records(kept + [ref])
  {
    hide Record, Records;
    RecordsAppend(kept, ref);
    EmptyRecords();
    if kept == [] {
      assert [] + Record(ref) == Record(ref);
      assert [] + (SHARD_MAGIC + Record(ref)) == SHARD_MAGIC + Record(ref);
    } else {
      assert [] + Record(ref) == Record(ref);
      Associate(SHARD_MAGIC, Records(kept), Record(ref));
    }
  }

  // ----- Well-formed key files -----

  /** The record of this reference, if there is one, is within the size limit. */
  predicate RefFits(ref: Option<Reference>) {
    ref.Some? ==> Fits(ref.value)
  }

  lemma AddRefKeepsGood(lib: Library, kf: KeyFiles, ref: Option<Reference>)
    requires Good(lib, kf) && RefFits(ref)
    ensures Good(lib, AddRef(lib, kf, ref))
  {
    hide Good, AppendTo, RefsOf, Canonical;
    if ref.Some? {
      AppendAdds(lib, kf, ref.value);
    }
  }

  /** Every line's record, if it has one, is within the size limit. */
  ghost predicate LinesFit(lib: Library, key: Text, path: Path, ls: seq<Located>) {
    forall l: Located :: l in ls ==> RefFits(LineRef(lib, key, path, l.offset, |l.text|, l.text))
  }

  lemma {:induction false} BackfilledKeepsGood(lib: Library, key: Text, path: Path, ls: seq<Located>, kf: KeyFiles)
    requires Good(lib, kf) && LinesFit(lib, key, path, ls)
    ensures Good(lib, Backfilled(lib, key, path, ls, kf))
  {
    hide Good, AddRef, LineRef, RefFits;
    if ls != [] {
      var ref := LineRef(lib, key, path, ls[0].offset, |ls[0].text|, ls[0].text);
      AddRefKeepsGood(lib, kf, ref);
      BackfilledKeepsGood(lib, key, path, ls[1..], AddRef(lib, kf, ref));
    }
  }

  lemma {:induction false} RebuiltKeepsGood(lib: Library, key: Text, logs: Files, listing: seq<Path>, kf: KeyFiles)
    requires Good(lib, kf)
    requires forall p :: p in listing && p in logs ==> LinesFit(lib, key, p, LinesFrom(logs[p].bytes, 0))
    ensures Good(lib, Rebuilt(lib, key, logs, listing, kf))
  {
    hide Good, Backfilled, LinesFit, LinesFrom;
    if listing != [] {
      var path := listing[0];
      if path in logs {
        BackfilledKeepsGood(lib, key, path, LinesFrom(logs[path].bytes, 0), kf);
        RebuiltKeepsGood(lib, key, logs, listing[1..], Backfilled(lib, key, path, LinesFrom(logs[path].bytes, 0), kf));
      } else {
        RebuiltKeepsGood(lib, key, logs, listing[1..], kf);
      }
    }
  }

  lemma PrefixesKeepGood(lib: Library, key: Text, logs: Files, listing: seq<Path>)
    requires forall p :: p in listing && p in logs ==> LinesFit(lib, key, p, LinesFrom(logs[p].bytes, 0))
    ensures forall n :: 0 <= n <= |listing| ==> Good(lib, Rebuilt(lib, key, logs, listing[..n], map[]))
  {
    hide LinesFit, LinesFrom, Rebuilt;
    forall n | 0 <= n <= |listing|
      ensures Good(lib, Rebuilt(lib, key, logs, listing[..n], map[]))
    {
      RebuiltKeepsGood(lib, key, logs, listing[..n], map[]);
    }
  }

  lemma RebuiltNothing(lib: Library, key: Text, logs: Files, listing: seq<Path>)
    ensures Rebuilt(lib, key, logs, listing[..0], map[]) == map[]
  {
  }

  lemma {:induction false} RebuiltMore(lib: Library, key: Text, logs: Files, listing: seq<Path>, i: nat, kf: KeyFiles)
    requires i < |listing| && listing[i] in logs
    ensures Rebuilt(lib, key, logs, listing[..i + 1], kf)
         == Backfilled(lib, key, listing[i], LinesFrom(logs[listing[i]].bytes, 0),
                       Rebuilt(lib, key, logs, listing[..i], kf))
  {
    hide Backfilled, LinesFrom;
    if i > 0 {
      var path := listing[0];
      var filled := if path in logs then Backfilled(lib, key, path, LinesFrom(logs[path].bytes, 0), kf) else kf;
      assert listing[..i + 1][1..] == listing[1..][..i] && listing[..i][1..] == listing[1..][..i - 1];
      RebuiltMore(lib, key, logs, listing[1..], i - 1, filled);
    } else {
      assert listing[..1][1..] == [];
    }
  }

  /** The reference is the last of its value's shard; the others are the same. */
  ghost predicate AddedLast(lib: Library, kf: KeyFiles, after: KeyFiles, ref: Reference) {
    forall s: byte ::
      RefsOf(after, s) == if s == lib.shardOf(ref.value) then RefsOf(kf, s) + [Canonical(ref)] else RefsOf(kf, s)
  }

  lemma NoneGood(lib: Library)
    ensures Good(lib, map[])
  {
  }

  lemma SomeLeftGood(lib: Library, kf: KeyFiles, left: set<byte>)
    requires Good(lib, kf)
    ensures Good(lib, map s | s in kf && s in left :: kf[s])
  {
    hide GoodShard;
  }

  /** How the operating system answers one Create or Delete: whether the index
      root can be made and the list of keys saved, and before which of the
      listed segments a rebuild fails, if it does. */
  datatype Answers = Answers(mkdirOk: bool, saveOk: bool, failAt: Option<nat>)

  /** The rebuild gets through this listing. */
  predicate Readable(logs: Files, listing: seq<Path>, failAt: Option<nat>) {
    (failAt.Some? ==> |listing| <= failAt.value) && forall p :: p in listing ==> p in logs
  }

  datatype Failure = InvalidKey | NoSuchKey | StoreFailed

  class Manager {
    const lib: Library
    const logs: LogStore
    var keys: set<Text>
    var dirs: map<Text, KeyFiles>  // a key's shard directory, by key

    constructor (lib: Library, logs: LogStore)
      ensures this.lib == lib && this.logs == logs && keys == {} && dirs == map[] && Valid()
    {
      this.lib, this.logs, keys, dirs := lib, logs, {}, map[];
    }

    function DirOf(key: Text): KeyFiles
      reads this`dirs
    {
      if key in dirs then dirs[key] else map[]
    }

    /** Every shard is whole records, each in the shard of its value. */
    ghost predicate Valid()
      reads this`dirs
    {
      forall k :: Good(lib, DirOf(k))
    }

    /** The reference goes, as stored, to the end of its value's shard; no other
        reference moves, and the shards stay well formed. */
    method AppendReference(key: Text, ref: Reference)
      modifies this`dirs
      ensures dirs == old(dirs)[key := AppendTo(lib, old(DirOf(key)), ref)]
      ensures old(Valid()) && Fits(ref) ==> Valid()
      ensures old(Valid()) && Fits(ref) ==> AddedLast(lib, old(DirOf(key)), DirOf(key), ref)
    {
      hide AppendTo, RefsOf, Good, Canonical, Fits;
      ghost var kf := DirOf(key);
      if Valid() && Fits(ref) {
        AppendAdds(lib, kf, ref);
      }
      dirs := dirs[key := AppendTo(lib, DirOf(key), ref)];
      forall k | old(Valid()) && Fits(ref)
        ensures Good(lib, DirOf(k))
      {
        assert old(Good(lib, DirOf(k)));
      }
    }

    /** backfillFileLocked */
    method BackfillFile(key: Text, path: Path)
      modifies this`dirs
      requires path in logs.files
      ensures DirOf(key) == Backfilled(lib, key, path, LinesFrom(logs.files[path].bytes, 0), old(DirOf(key)))
      ensures forall k :: k != key ==> DirOf(k) == old(DirOf(k))
    {
      hide AppendTo, LineRef;
      var file := logs.files[path].bytes;
      var offset := 0;
      while offset < |file|
        invariant 0 <= offset <= |file|
        invariant Backfilled(lib, key, path, LinesFrom(file, offset), DirOf(key))
               == Backfilled(lib, key, path, LinesFrom(file, 0), old(DirOf(key)))
        invariant forall k :: k != key ==> DirOf(k) == old(DirOf(k))
      {
        var end := LineEnd(file, offset);
        var line := TrimEol(file[offset..end]);
        assert LinesFrom(file, offset)[1..] == LinesFrom(file, end);
        var ref := LineRef(lib, key, path, offset, |line|, line);
        if ref.Some? {
          AppendReference(key, ref.value);
        }
        offset := end;
      }
    }

    /** rebuildLocked, over the segments in the order they are listed; it stops
        at the first that cannot be read. */
    method Rebuild(key: Text, listing: seq<Path>, failAt: Option<nat>) returns (ok: bool)
      modifies this`dirs
      ensures ok == Readable(logs.files, listing, failAt)
      ensures ok ==> DirOf(key) == Rebuilt(lib, key, logs.files, listing, map[])
      ensures exists n :: 0 <= n <= |listing| && DirOf(key) == Rebuilt(lib, key, logs.files, listing[..n], map[])
      ensures forall k :: k != key ==> DirOf(k) == old(DirOf(k))
    {
      hide Backfilled, Rebuilt;
      dirs := dirs - {key};
      RebuiltNothing(lib, key, logs.files, listing);
      for i := 0 to |listing|
        invariant forall p :: p in listing[..i] ==> p in logs.files
        invariant failAt.Some? ==> i <= failAt.value
        invariant DirOf(key) == Rebuilt(lib, key, logs.files, listing[..i], map[])
        invariant forall k :: k != key ==> DirOf(k) == old(DirOf(k))
      {
        if failAt == Some(i) || listing[i] !in logs.files {
          return false;
        }
        RebuiltMore(lib, key, logs.files, listing, i, map[]);
        assert listing[..i + 1] == listing[..i] + [listing[i]];
        BackfillFile(key, listing[i]);
      }
      assert listing[..|listing|] == listing;
      ok := true;
    }

    method Create(key: Text, listing: seq<Path>, answers: Answers) returns (failure: Option<Failure>)
      modifies this
      ensures failure == if !ValidKey(key) then Some(InvalidKey)
                         else if !answers.mkdirOk then Some(StoreFailed)
                         else if key in old(keys) then None
                         else if answers.saveOk && Readable(logs.files, listing, answers.failAt) then None
                         else Some(StoreFailed)
      ensures keys == if failure == None then old(keys) + {key} else old(keys)
      ensures failure == None && key !in old(keys) ==> DirOf(key) == Rebuilt(lib, key, logs.files, listing, map[])
      ensures !ValidKey(key) || !answers.mkdirOk || key in old(keys) || !answers.saveOk ==> dirs == old(dirs)
      ensures forall k :: k != key ==> DirOf(k) == old(DirOf(k))
      ensures old(Valid()) && Fitting(key, listing) ==> Valid()
    {
      hide Good, Rebuilt;
      if !ValidKey(key) {
        return Some(InvalidKey);
      }
      if !answers.mkdirOk {
        return Some(StoreFailed);
      }
      if key in keys {
        return None;
      }
      ghost var before := keys;
      keys := keys + {key};
      if !answers.saveOk {
        keys := keys - {key};
        assert keys == before;
        return Some(StoreFailed);
      }
      var ok := Rebuild(key, listing, answers.failAt);
      if Fitting(key, listing) {
        PrefixesKeepGood(lib, key, logs.files, listing);
      }
      if !ok {
        keys := keys - {key};
        assert keys == before;
        return Some(StoreFailed);
      }
      failure := None;
    }

    /** No record of a listed segment is over the size limit. */
    ghost predicate Fitting(key: Text, listing: seq<Path>)
      reads logs
    {
      forall p :: p in listing && p in logs.files ==> LinesFit(lib, key, p, LinesFrom(logs.files[p].bytes, 0))
    }

    /** `left` is what a failing removal leaves of the key's shards. */
    method Delete(key: Text, saveOk: bool, left: Option<set<byte>>) returns (failure: Option<Failure>)
      modifies this
      ensures failure == if !ValidKey(key) then Some(InvalidKey)
                         else if key !in old(keys) then Some(NoSuchKey)
                         else if !saveOk || left.Some? then Some(StoreFailed)
                         else None
      ensures keys == if ValidKey(key) && saveOk then old(keys) - {key} else old(keys)
      ensures failure == None ==> DirOf(key) == map[]
      ensures !ValidKey(key) || key !in old(keys) || !saveOk ==> dirs == old(dirs)
      ensures forall k :: k != key ==> DirOf(k) == old(DirOf(k))
      ensures old(Valid()) ==> Valid()
    {
      hide Good;
      if Valid() {
        NoneGood(lib);
      }
      if !ValidKey(key) {
        return Some(InvalidKey);
      }
      if key !in keys {
        return Some(NoSuchKey);
      }
      ghost var before := keys;
      keys := keys - {key};
      if !saveOk {
        keys := keys + {key};
        assert keys == before;
        return Some(StoreFailed);
      }
      if left.Some? {
        var kf := DirOf(key);
        if Valid() {
          SomeLeftGood(lib, kf, left.value);
        }
        dirs := dirs[key := map s | s in kf && s in left.value :: kf[s]];
        return Some(StoreFailed);
      }
      dirs := dirs - {key};
      failure := None;
    }

    /** ObserveLineAt: every index gets the line's reference, if it has one. */
    method ObserveLineAt(path: Path, offset: nat, length: uint32, line: Text)
      modifies this`dirs
      ensures forall k :: DirOf(k) == if k !in keys then old(DirOf(k))
                                      else AddRef(lib, old(DirOf(k)), LineRef(lib, k, path, offset, length, line))
      ensures old(Valid()) && (forall k :: k in keys ==> RefFits(LineRef(lib, k, path, offset, length, line))) ==>
                Valid()
    {
      hide AppendTo, LineRef, Good, RefFits;
      ghost var valid := Valid() && forall k :: k in keys ==> RefFits(LineRef(lib, k, path, offset, length, line));
      var todo := keys;
      while todo != {}
        invariant todo <= keys
        invariant forall k :: DirOf(k) == if k in keys && k !in todo
                                          then AddRef(lib, old(DirOf(k)), LineRef(lib, k, path, offset, length, line))
                                          else old(DirOf(k))
        decreases |todo|
      {
        var key :| key in todo;
        var ref := LineRef(lib, key, path, offset, length, line);
        if ref.Some? {
          AppendReference(key, ref.value);
        }
        todo := todo - {key};
      }
      forall k | valid
        ensures Good(lib, DirOf(k))
      {
        assert old(Good(lib, DirOf(k)));
        if k in keys {
          AddRefKeepsGood(lib, old(DirOf(k)), LineRef(lib, k, path, offset, length, line));
        }
      }
    }

    /** The shards of one key, up to the first that does not scan. */
    method CompactKey(key: Text) returns (ok: bool)
      modifies this`dirs
      ensures (DirOf(key), ok) == CompactFrom(logs.files, old(DirOf(key)), 0)
      ensures forall k :: k != key ==> DirOf(k) == old(DirOf(k))
    {
      hide ScanFile, Records, Available;
      for shard := 0 to 256
        invariant CompactFrom(logs.files, DirOf(key), shard) == CompactFrom(logs.files, old(DirOf(key)), 0)
        invariant forall k :: k != key ==> DirOf(k) == old(DirOf(k))
      {
        var kf := DirOf(key);
        if shard in kf {
          var refs, scanned := ScanShard(kf[shard]);
          if !scanned {
            return false;
          }
          var kept := CompactRecords(logs.files, refs);
          if kept.None? {
            dirs := dirs[key := kf - {shard}];
          } else {
            dirs := dirs[key := kf[shard := kept.value]];
          }
          assert DirOf(key) == CompactShard(logs.files, kf, shard);
        }
      }
      ok := true;
    }

    /** Compact: the keys in any order, stopping at the first failure. */
    method Compact() returns (ok: bool)
      modifies this`dirs
      ensures ok ==> forall k :: k in keys ==> DirOf(k) == CompactFrom(logs.files, old(DirOf(k)), 0).0
      ensures ok <==> forall k :: k in keys ==> CompactFrom(logs.files, old(DirOf(k)), 0).1
      ensures forall k :: || DirOf(k) == old(DirOf(k))
                          || (k in keys && DirOf(k) == CompactFrom(logs.files, old(DirOf(k)), 0).0)
      ensures old(Valid()) ==> ok && Valid()
    {
      hide CompactFrom, Good;
      forall k | Valid()
        ensures Good(lib, DirOf(k))
        ensures CompactFrom(logs.files, DirOf(k), 0).1 && Good(lib, CompactFrom(logs.files, DirOf(k), 0).0)
      {
        assert Good(lib, DirOf(k));
        CompactKeepsGood(lib, logs.files, DirOf(k));
      }
      ok := CompactKeys();
    }

    /** The loop of Compact. */
    method CompactKeys() returns (ok: bool)
      modifies this`dirs
      ensures ok ==> forall k :: k in keys ==> DirOf(k) == CompactFrom(logs.files, old(DirOf(k)), 0).0
      ensures ok <==> forall k :: k in keys ==> CompactFrom(logs.files, old(DirOf(k)), 0).1
      ensures forall k :: || DirOf(k) == old(DirOf(k))
                          || (k in keys && DirOf(k) == CompactFrom(logs.files, old(DirOf(k)), 0).0)
    {
      hide CompactFrom;
      var todo := keys;
      while todo != {}
        invariant todo <= keys
        invariant forall k :: k in keys && k !in todo ==>
                    (DirOf(k), true) == CompactFrom(logs.files, old(DirOf(k)), 0)
        invariant forall k :: k in todo || k !in keys ==> DirOf(k) == old(DirOf(k))
        decreases |todo|
      {
        var key :| key in todo;
        ok := CompactKey(key);
        if !ok {
          return;
        }
        todo := todo - {key};
      }
      ok := true;
    }

    method GetLogs(key: Text, value: Text, requested: int, token: IndexPages.Token, last: bool)
      returns (failure: Option<Failure>, answer: IndexPages.Answer)
      ensures failure == if !ValidKey(key) then Some(InvalidKey) else if key !in keys then Some(NoSuchKey) else None
      ensures failure == None ==>
                answer == IndexPages.PageAnswer(lib, logs.files, DirOf(key), value, requested, token, last)
    {
      answer := IndexPages.NotFound;
      if !ValidKey(key) {
        return Some(InvalidKey), answer;
      }
      if key !in keys {
        return Some(NoSuchKey), answer;
      }
      answer := IndexPages.GetPage(lib, logs.files, DirOf(key), value, requested, token, last);
      failure := None;
    }

    method ListValues(key: Text, requested: int, token: IndexPages.Token)
      returns (failure: Option<Failure>, answer: IndexValues.Answer)
      requires Sharded(lib, DirOf(key))
      ensures failure == if !ValidKey(key) then Some(InvalidKey) else if key !in keys then Some(NoSuchKey) else None
      ensures failure == None ==> IndexValues.AnswersRightly(lib, logs.files, DirOf(key), requested, token, answer)
    {
      answer := IndexValues.InvalidToken;
      if !ValidKey(key) {
        return Some(InvalidKey), answer;
      }
      if key !in keys {
        return Some(NoSuchKey), answer;
      }
      answer := IndexValues.ListPage(lib, logs.files, DirOf(key), requested, token);
      failure := None;
    }
  }

}
