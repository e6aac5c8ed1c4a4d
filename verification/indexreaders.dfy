/** What a reader of the index is shown, in terms of the lines alone. */
module IndexReaders {
  import opened Bytes
  import opened Lines
  import opened Writer
  import opened ShardCodec
  import opened IndexShards
  import opened IndexAgreement
  import opened IndexPages

  lemma NothingOverflows(lib: Library, key: Text, logs: Files, kf: KeyFiles, value: Text)
    requires GoodRefs(lib, key, logs, kf) && GoodLogs(lib, key, logs)
    ensures NoOverflow(logs, RefsOf(kf, lib.shardOf(value)))
  {
    hide ScanFile, Good, LinesFrom, Storable, TimedBy;
    forall r | r in RefsOf(kf, lib.shardOf(value)) && r.path in logs
      ensures r.offset + r.length < TWO_63
    {
      assert ReadsValue(lib, key, logs, r);
    }
  }

  /** Of an index that agrees with the store, following next tokens shows lines
      that carry the value asked for, each from where its reference says, those
      with a time of their own first and in the order of these times. */
  lemma ReadersSee(lib: Library, key: Text, logs: Files, kf: KeyFiles, value: Text, requested: int, fuel: nat)
    returns (refs: seq<Reference>)
    requires GoodRefs(lib, key, logs, kf) && GoodLogs(lib, key, logs)
    requires |RefsOf(kf, lib.shardOf(value))| <= fuel
    ensures var shown := Shown(lib, logs, kf, value, requested, NoToken, fuel);
            && |shown| == |refs|
            && (forall i :: 0 <= i < |shown| ==>
                  && lib.valueOf(shown[i], key) == Some(value)
                  && refs[i].path in logs && 0 <= refs[i].offset && refs[i].length == |shown[i]|
                  && refs[i].offset + |shown[i]| <= |logs[refs[i].path].bytes|
                  && shown[i] == logs[refs[i].path].bytes[refs[i].offset..refs[i].offset + |shown[i]|])
            && (forall i, j :: 0 <= i < j < |shown| && lib.stampOf(shown[j]).Some? ==>
                  && lib.stampOf(shown[i]).Some?
                  && ToInt64(lib.stampOf(shown[i]).value) <= ToInt64(lib.stampOf(shown[j]).value))
    ensures forall r :: r in refs <==>
              r in RefsOf(kf, lib.shardOf(value)) && r.value == value && r.path in logs
  {
    hide GoodRefs, GoodLogs, Shown, ScanOf, RefsOf, NoOverflow, ReadsValue, References, Ordered, Good;
    GoodRefsGood(lib, key, logs, kf);
    GoodScans(lib, kf, lib.shardOf(value));
    NothingOverflows(lib, key, logs, kf, value);
    refs := TokensShowLines(lib, logs, kf, value, requested, fuel);
    var shown := Shown(lib, logs, kf, value, requested, NoToken, fuel);
    RefsAreThose(lib, key, logs, kf, value, refs);
    RefsRead(lib, key, logs, kf, value, refs, shown);
    ShownOrdered(lib, logs, kf, value, refs);
    LinesAsReferenced(lib, key, logs, value, refs, shown);
  }

  /** Of such an index the bytes of every reference are there if its file is. */
  lemma RefsAreThose(lib: Library, key: Text, logs: Files, kf: KeyFiles, value: Text, refs: seq<Reference>)
    requires GoodRefs(lib, key, logs, kf)
    requires forall r :: multiset(refs)[r]
               == if r.value == value && r.path in logs && 0 <= r.offset
                     && r.offset + r.length <= |logs[r.path].bytes|
                  then multiset(RefsOf(kf, lib.shardOf(value)))[r] else 0
    ensures forall r :: r in refs <==> r in RefsOf(kf, lib.shardOf(value)) && r.value == value && r.path in logs
  {
    hide GoodRefs, RefsOf, ReadsValue;
    var stored := RefsOf(kf, lib.shardOf(value));
    forall r
      ensures r in refs <==> r in stored && r.value == value && r.path in logs
    {
      assert r in refs <==> multiset(refs)[r] > 0;
      assert r in stored <==> multiset(stored)[r] > 0;
      if r in stored && r.path in logs {
        StoredReads(lib, key, logs, kf, value, r);
      }
    }
  }

  lemma RefsRead(lib: Library, key: Text, logs: Files, kf: KeyFiles, value: Text, refs: seq<Reference>,
                 shown: seq<Text>)
    requires GoodRefs(lib, key, logs, kf) && |shown| == |refs|
    requires forall r :: r in refs ==> r in RefsOf(kf, lib.shardOf(value)) && r.value == value && r.path in logs
    requires forall i :: 0 <= i < |refs| ==>
               && 0 <= refs[i].offset && refs[i].path in logs
               && refs[i].offset + refs[i].length <= |logs[refs[i].path].bytes|
               && shown[i] == logs[refs[i].path].bytes[refs[i].offset..refs[i].offset + refs[i].length]
    ensures forall i :: 0 <= i < |shown| ==>
              && refs[i].value == value && ReadsValue(lib, key, logs, refs[i])
              && IndexPages.ReadLine(logs, refs[i]) == Some(shown[i]) && refs[i].length == |shown[i]|
  {
    hide GoodRefs, RefsOf, ReadsValue;
    forall i | 0 <= i < |shown|
      ensures refs[i].value == value && ReadsValue(lib, key, logs, refs[i])
      ensures IndexPages.ReadLine(logs, refs[i]) == Some(shown[i]) && refs[i].length == |shown[i]|
    {
      assert refs[i] in refs;
      StoredReads(lib, key, logs, kf, value, refs[i]);
    }
  }

  /** Lines read back are in the order of their references. */
  lemma LinesAsReferenced(lib: Library, key: Text, logs: Files, value: Text, refs: seq<Reference>, shown: seq<Text>)
    requires |shown| == |refs|
    requires forall i :: 0 <= i < |shown| ==>
               && refs[i].value == value && ReadsValue(lib, key, logs, refs[i])
               && IndexPages.ReadLine(logs, refs[i]) == Some(shown[i])
    requires forall i, j :: 0 <= i < j < |refs| ==>
               && (refs[j].validTime ==> refs[i].validTime)
               && (refs[i].validTime && refs[j].validTime ==> refs[i].timestamp <= refs[j].timestamp)
    ensures forall i :: 0 <= i < |shown| ==> lib.valueOf(shown[i], key) == Some(value)
    ensures forall i, j :: 0 <= i < j < |shown| && lib.stampOf(shown[j]).Some? ==>
              && lib.stampOf(shown[i]).Some?
              && ToInt64(lib.stampOf(shown[i]).value) <= ToInt64(lib.stampOf(shown[j]).value)
  {
    hide IndexPages.ReadLine, ReadsValue, ToInt64;
    forall i | 0 <= i < |shown|
      ensures lib.valueOf(shown[i], key) == Some(value)
    {
      ReadTimed(lib, key, logs, refs[i], shown[i]);
    }
    forall i, j | 0 <= i < j < |shown| && lib.stampOf(shown[j]).Some?
      ensures lib.stampOf(shown[i]).Some?
      ensures ToInt64(lib.stampOf(shown[i]).value) <= ToInt64(lib.stampOf(shown[j]).value)
    {
      ReadTimed(lib, key, logs, refs[i], shown[i]);
      ReadTimed(lib, key, logs, refs[j], shown[j]);
    }
  }

  lemma StoredReads(lib: Library, key: Text, logs: Files, kf: KeyFiles, value: Text, r: Reference)
    requires GoodRefs(lib, key, logs, kf) && r in RefsOf(kf, lib.shardOf(value)) && r.path in logs
    ensures ReadsValue(lib, key, logs, r)
    ensures 0 <= r.offset && r.offset + r.length <= |logs[r.path].bytes|
  {
    hide Good, ScanFile, TimedBy;
  }

  /** A line read back has the value and the time of its reference. */
  lemma ReadTimed(lib: Library, key: Text, logs: Files, r: Reference, text: Text)
    requires ReadsValue(lib, key, logs, r) && IndexPages.ReadLine(logs, r) == Some(text)
    ensures lib.valueOf(text, key) == Some(r.value)
    ensures r.validTime <==> lib.stampOf(text).Some?
    ensures r.validTime ==> r.timestamp == ToInt64(lib.stampOf(text).value)
  {
  }

  lemma ShownOrdered(lib: Library, logs: Files, kf: KeyFiles, value: Text, refs: seq<Reference>)
    requires refs == References(Ordered(lib, logs, kf, value))
    ensures forall i, j :: 0 <= i < j < |refs| ==>
              && (refs[j].validTime ==> refs[i].validTime)
              && (refs[i].validTime && refs[j].validTime ==> refs[i].timestamp <= refs[j].timestamp)
  {
    hide ScanFile, Wanted, Ordered, Matching;
    var _ := OrderedSpelledOut(lib, logs, kf, value);
  }

  /** Over any run, once the index is built and no write awaits its observation: a
      client that asks for a value and follows the next tokens is shown only lines
      that carry it, those with a time of their own first and in the order of these
      times, and among them every intact line of the store that carries it, each at
      a place of its own. */
  lemma IndexServes(lib: Library, key: Text, states: seq<State>, actions: seq<Action>, value: Text, requested: int,
                    fuel: nat) returns (places: seq<Spot>)
    requires Run(lib, key, states, actions)
    requires var s := states[|actions|];
             s.mode.Live? && s.waiting == multiset{} && |RefsOf(s.kf, lib.shardOf(value))| <= fuel
    ensures var s := states[|actions|];
            var shown := Shown(lib, s.logs, s.kf, value, requested, NoToken, fuel);
            && |shown| == |places|
            && (forall i :: 0 <= i < |shown| ==> lib.valueOf(shown[i], key) == Some(value))
            && (forall i, j :: 0 <= i < j < |shown| && lib.stampOf(shown[j]).Some? ==>
                  && lib.stampOf(shown[i]).Some?
                  && ToInt64(lib.stampOf(shown[i]).value) <= ToInt64(lib.stampOf(shown[j]).value))
            && (forall p, l :: Due(s, p, l) && lib.valueOf(l.text, key) == Some(value) ==>
                  exists i :: 0 <= i < |shown| && shown[i] == l.text && places[i] == Spot(p, l.offset))
  {
    hide Inv, GoodRefs, GoodLogs, Shown, ScanOf, Due, TimedBy;
    var s := states[|actions|];
    hide Run;
    RunKeeps(lib, key, states, actions);
    InvAgrees(lib, key, s);
    IndexAgrees(lib, key, states, actions);
    var refs := ReadersSee(lib, key, s.logs, s.kf, value, requested, fuel);
    var shown := Shown(lib, s.logs, s.kf, value, requested, NoToken, fuel);
    places := seq(|refs|, i requires 0 <= i < |refs| => Spot(refs[i].path, refs[i].offset));
    forall p, l | Due(s, p, l) && lib.valueOf(l.text, key) == Some(value)
      ensures exists i :: 0 <= i < |shown| && shown[i] == l.text && places[i] == Spot(p, l.offset)
    {
      assert Referenced(lib, s.kf, p, l, value);
      var r := RefOfDue(lib, key, s, p, l, value);
      assert r in refs;
      var i :| 0 <= i < |refs| && refs[i] == r;
      assert shown[i] == l.text;
    }
  }

  lemma RefOfDue(lib: Library, key: Text, s: State, p: Path, l: Located, value: Text) returns (r: Reference)
    requires GoodLogs(lib, key, s.logs) && Due(s, p, l) && Referenced(lib, s.kf, p, l, value)
    ensures r in RefsOf(s.kf, lib.shardOf(value)) && r.value == value && r.path == p && p in s.logs
    ensures r.offset == l.offset && r.length == |l.text| && l.offset + |l.text| <= |s.logs[p].bytes|
    ensures s.logs[p].bytes[l.offset..l.offset + |l.text|] == l.text
  {
    hide ScanFile, LinesFrom, TimedBy, GoodLogs, Storable;
    LineStands(lib, key, s.logs, p, l);
    r :| r in RefsOf(s.kf, lib.shardOf(value)) && r.path == p && r.offset == l.offset
         && r.length == |l.text| && r.value == value;
  }

  lemma InvAgrees(lib: Library, key: Text, s: State)
    requires Inv(lib, key, s)
    ensures GoodRefs(lib, key, s.logs, s.kf) && GoodLogs(lib, key, s.logs)
  {
  }
}
