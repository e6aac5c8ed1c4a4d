/** The binary shard files of the secondary index: one length-prefixed record
    per reference after a four-byte magic (indexes/manager.go). */
module ShardCodec {
  import opened Bytes
  import opened Writer

  /** Where one line carrying a value is, and when it was logged. */
  datatype Reference = Reference(timestamp: Time, validTime: bool, path: Path, value: Text, offset: int64,
                                 length: uint32)

  /** "SLI3" */
  const SHARD_MAGIC: Text := [0x53, 0x4C, 0x49, 0x33]

  const HEADER := 41
  const MAX_BODY := 64 * 1024 * 1024

  /** Stored times are 64-bit nanoseconds, so a time outside them wraps. */
  function Canonical(ref: Reference): Reference {
    ref.(timestamp := ToInt64(ref.timestamp))
  }

  function BodyLength(ref: Reference): nat {
    HEADER + |ref.path.dir.namespace| + |ref.path.dir.pod| + |ref.path.dir.container| + |ref.path.segment| + |ref.value|
  }

  function Payload(ref: Reference): (b: Text)
    ensures |b| == BodyLength(ref) - HEADER
  {
    ref.path.dir.namespace + ref.path.dir.pod + ref.path.dir.container + ref.path.segment + ref.value
  }

  /** The header up to and including the line's length. */
  function Numbers(ref: Reference): (b: Text)
    ensures |b| == 21
  {
    [if ref.validTime then 1 else 0]
    + BigEndian(ToUint64(ToInt64(ref.timestamp)), 8)
    + BigEndian(ToUint64(ref.offset), 8)
    + BigEndian(ref.length, 4)
  }

  function Lengths(ref: Reference): (b: Text)
    ensures |b| == 20
  {
    BigEndian(|ref.path.dir.namespace|, 4) + BigEndian(|ref.path.dir.pod|, 4) + BigEndian(|ref.path.dir.container|, 4)
    + BigEndian(|ref.path.segment|, 4) + BigEndian(|ref.value|, 4)
  }

  function Body(ref: Reference): (b: Text)
    ensures |b| == BodyLength(ref)
  {
    Numbers(ref) + Lengths(ref) + Payload(ref)
  }

  function Record(ref: Reference): (b: Text)
    ensures |b| == 4 + BodyLength(ref)
  {
    BigEndian(BodyLength(ref), 4) + Body(ref)
  }

  /** encodeReference: the record's bytes, or None if it is too large. */
  function EncodeReference(ref: Reference, includeMagic: bool): Option<Text> {
    if BodyLength(ref) >= TWO_32 then None
    else Some((if includeMagic then SHARD_MAGIC else []) + Record(ref))
  }

  function Records(refs: seq<Reference>): Text {
    if refs == [] then [] else Record(refs[0]) + Records(refs[1..])
  }

  predicate Fits(ref: Reference) {
    BodyLength(ref) <= MAX_BODY
  }

  // ----- Scanning -----

  function Number(b: Text, lo: nat, hi: nat): nat
    requires lo <= hi <= |b|
  {
    FromBigEndian(b[lo..hi])
  }

  /** One record's body; None when its lengths do not add up. */
  function Decode(body: Text): Option<Reference>
    requires |body| >= HEADER
  {
    var ns, pod, container := Number(body, 21, 25), Number(body, 25, 29), Number(body, 29, 33);
    var segment, value := Number(body, 33, 37), Number(body, 37, 41);
    if ns + pod + container + segment + value != |body| - HEADER then None
    else
      WidthBounds();
      var p1 := HEADER + ns;
      var p2 := p1 + pod;
      var p3 := p2 + container;
      var p4 := p3 + segment;
      Some(Reference(ToInt64(Number(body, 1, 9)), body[0] == 1,
                     Path(Dir(body[HEADER..p1], body[p1..p2], body[p2..p3]), body[p3..p4]),
                     body[p4..p4 + value], ToInt64(Number(body, 9, 17)), Number(body, 17, 21)))
  }

  /** The references visited, and whether the scan ended without an error. */
  datatype Scan = Scan(refs: seq<Reference>, ok: bool)

  /** What the scan meets at one offset. */
  datatype Step =
    | Stop(ok: bool)                   // the end, a torn record, or a bad one
    | Visit(ref: Reference, next: nat)

  function ScanStep(file: Text, pos: nat): (s: Step)
    requires pos <= |file|
    ensures s.Visit? ==> pos < s.next <= |file|
  {
    if |file| - pos < 4 then Stop(true)
    else
      var n := Number(file, pos, pos + 4);
      if n < HEADER || n > MAX_BODY then Stop(false)
      else if |file| - pos - 4 < n then Stop(true)
      else
        match Decode(file[pos + 4..pos + 4 + n])
        case None => Stop(false)
        case Some(ref) => Visit(ref, pos + 4 + n)
  }

  function ScanFrom(file: Text, pos: nat): Scan
    requires pos <= |file|
    decreases |file| - pos
  {
    match ScanStep(file, pos)
    case Stop(ok) => Scan([], ok)
    case Visit(ref, next) =>
      var rest := ScanFrom(file, next);
      Scan([ref] + rest.refs, rest.ok)
  }

  function ScanFile(file: Text): Scan {
    if |file| < 4 || file[..4] != SHARD_MAGIC then Scan([], false) else ScanFrom(file, 4)
  }

  /** scanShardLocked on an existing file, visiting into a list. */
  method ScanShard(file: Text) returns (visited: seq<Reference>, ok: bool)
    ensures Scan(visited, ok) == ScanFile(file)
  {
    hide ScanStep;
    if |file| < 4 || file[..4] != SHARD_MAGIC {
      return [], false;
    }
    visited := [];
    var pos := 4;
    while true
      invariant 4 <= pos <= |file|
      invariant ScanFile(file).refs == visited + ScanFrom(file, pos).refs
      invariant ScanFile(file).ok == ScanFrom(file, pos).ok
      decreases |file| - pos
    {
      match ScanStep(file, pos) {
        case Stop(quiet) =>
          return visited, quiet;
        case Visit(ref, next) =>
          visited := visited + [ref];
          pos := next;
      }
    }
  }

  lemma SliceOfSuffix(whole: Text, part: Text, at: nat, lo: nat, hi: nat)
    requires at + |part| <= |whole| && whole[at..at + |part|] == part && lo <= hi <= |part|
    ensures whole[at + lo..at + hi] == part[lo..hi]
  {
    forall i | 0 <= i < hi - lo
      ensures whole[at + lo..at + hi][i] == part[lo..hi][i]
    {
      assert part[lo + i] == whole[at..at + |part|][lo + i];
    }
  }

  // ----- The round trip -----

  lemma FourParts(a: Text, b: Text, c: Text, d: Text)
    ensures var s := a + b + c + d;
            var i, j, k := |a|, |a| + |b|, |a| + |b| + |c|;
            s[0..i] == a && s[i..j] == b && s[j..k] == c && s[k..k + |d|] == d
  {
  }

  lemma NumbersDecode(ref: Reference)
    ensures var b := Numbers(ref);
            && (b[0] == 1 <==> ref.validTime)
            && ToInt64(Number(b, 1, 9)) == ToInt64(ref.timestamp)
            && ToInt64(Number(b, 9, 17)) == ref.offset
            && Number(b, 17, 21) == ref.length
  {
    hide BigEndian, FromBigEndian;
    WidthBounds();
    var ts, off := ToUint64(ToInt64(ref.timestamp)), ToUint64(ref.offset);
    BigEndianRoundTrip(ts, 8);
    BigEndianRoundTrip(off, 8);
    BigEndianRoundTrip(ref.length, 4);
    FourParts([if ref.validTime then 1 else 0], BigEndian(ts, 8), BigEndian(off, 8), BigEndian(ref.length, 4));
  }

  lemma LengthsDecode(ref: Reference)
    requires Fits(ref)
    ensures var b := Lengths(ref);
            && Number(b, 0, 4) == |ref.path.dir.namespace|
            && Number(b, 4, 8) == |ref.path.dir.pod|
            && Number(b, 8, 12) == |ref.path.dir.container|
            && Number(b, 12, 16) == |ref.path.segment|
            && Number(b, 16, 20) == |ref.value|
  {
    hide BigEndian, FromBigEndian;
    WidthBounds();
    var ns, pod, container := |ref.path.dir.namespace|, |ref.path.dir.pod|, |ref.path.dir.container|;
    BigEndianRoundTrip(ns, 4);
    BigEndianRoundTrip(pod, 4);
    BigEndianRoundTrip(container, 4);
    BigEndianRoundTrip(|ref.path.segment|, 4);
    BigEndianRoundTrip(|ref.value|, 4);
    FiveFields(BigEndian(ns, 4), BigEndian(pod, 4), BigEndian(container, 4),
               BigEndian(|ref.path.segment|, 4), BigEndian(|ref.value|, 4));
  }

  lemma FiveFields(a: Text, b: Text, c: Text, d: Text, e: Text)
    requires |a| == |b| == |c| == |d| == |e| == 4
    ensures var s := a + b + c + d + e;
            s[0..4] == a && s[4..8] == b && s[8..12] == c && s[12..16] == d && s[16..20] == e
  {
    FourParts(a, b, c, d);
    var t := a + b + c + d;
    assert forall i :: 0 <= i < 16 ==> (t + e)[i] == t[i];
  }

  lemma PayloadParts(ref: Reference)
    ensures var b := Payload(ref);
            var p1 := |ref.path.dir.namespace|;
            var p2 := p1 + |ref.path.dir.pod|;
            var p3 := p2 + |ref.path.dir.container|;
            var p4 := p3 + |ref.path.segment|;
            && b[0..p1] == ref.path.dir.namespace
            && b[p1..p2] == ref.path.dir.pod
            && b[p2..p3] == ref.path.dir.container
            && b[p3..p4] == ref.path.segment
            && b[p4..p4 + |ref.value|] == ref.value
  {
  }

  lemma BodyNumbers(ref: Reference)
    ensures var body := Body(ref);
            && (body[0] == 1 <==> ref.validTime)
            && ToInt64(Number(body, 1, 9)) == ToInt64(ref.timestamp)
            && ToInt64(Number(body, 9, 17)) == ref.offset
            && Number(body, 17, 21) == ref.length
  {
    var body, numbers := Body(ref), Numbers(ref);
    assert body[0..0 + 21] == numbers;
    NumbersDecode(ref);
    SliceOfSuffix(body, numbers, 0, 1, 9);
    SliceOfSuffix(body, numbers, 0, 9, 17);
    SliceOfSuffix(body, numbers, 0, 17, 21);
  }

  lemma BodyLengths(ref: Reference)
    requires Fits(ref)
    ensures var body := Body(ref);
            && Number(body, 21, 25) == |ref.path.dir.namespace|
            && Number(body, 25, 29) == |ref.path.dir.pod|
            && Number(body, 29, 33) == |ref.path.dir.container|
            && Number(body, 33, 37) == |ref.path.segment|
            && Number(body, 37, 41) == |ref.value|
  {
    var body, lengths := Body(ref), Lengths(ref);
    assert body[21..21 + 20] == lengths;
    LengthsDecode(ref);
    SliceOfSuffix(body, lengths, 21, 0, 4);
    SliceOfSuffix(body, lengths, 21, 4, 8);
    SliceOfSuffix(body, lengths, 21, 8, 12);
    SliceOfSuffix(body, lengths, 21, 12, 16);
    SliceOfSuffix(body, lengths, 21, 16, 20);
  }

  lemma BodyTexts(ref: Reference)
    ensures var body := Body(ref);
            var p1 := HEADER + |ref.path.dir.namespace|;
            var p2 := p1 + |ref.path.dir.pod|;
            var p3 := p2 + |ref.path.dir.container|;
            var p4 := p3 + |ref.path.segment|;
            && body[HEADER..p1] == ref.path.dir.namespace
            && body[p1..p2] == ref.path.dir.pod
            && body[p2..p3] == ref.path.dir.container
            && body[p3..p4] == ref.path.segment
            && body[p4..p4 + |ref.value|] == ref.value
  {
    var body, payload := Body(ref), Payload(ref);
    assert body[HEADER..HEADER + |payload|] == payload;
    PayloadParts(ref);
    var p1 := |ref.path.dir.namespace|;
    var p2 := p1 + |ref.path.dir.pod|;
    var p3 := p2 + |ref.path.dir.container|;
    var p4 := p3 + |ref.path.segment|;
    SliceOfSuffix(body, payload, HEADER, 0, p1);
    SliceOfSuffix(body, payload, HEADER, p1, p2);
    SliceOfSuffix(body, payload, HEADER, p2, p3);
    SliceOfSuffix(body, payload, HEADER, p3, p4);
    SliceOfSuffix(body, payload, HEADER, p4, p4 + |ref.value|);
  }

  /** A body decodes to its reference, its time as stored. */
  lemma DecodeBody(ref: Reference)
    requires Fits(ref)
    ensures Decode(Body(ref)) == Some(Canonical(ref))
  {
    BodyNumbers(ref);
    BodyLengths(ref);
    BodyTexts(ref);
  }

  /** A record's bytes: its length, whether the time is valid, the time, offset and
      length of the line, five lengths, and the five texts. */
  lemma RecordLayout(ref: Reference)
    requires Fits(ref)
    ensures var b := Record(ref);
            var p1 := 45 + |ref.path.dir.namespace|;
            var p2 := p1 + |ref.path.dir.pod|;
            var p3 := p2 + |ref.path.dir.container|;
            var p4 := p3 + |ref.path.segment|;
            && |b| == p4 + |ref.value| && FromBigEndian(b[0..4]) == |b| - 4
            && (b[4] == 1 <==> ref.validTime)
            && ToInt64(FromBigEndian(b[5..13])) == ToInt64(ref.timestamp)
            && ToInt64(FromBigEndian(b[13..21])) == ref.offset
            && FromBigEndian(b[21..25]) == ref.length
            && FromBigEndian(b[25..29]) == |ref.path.dir.namespace| && FromBigEndian(b[29..33]) == |ref.path.dir.pod|
            && FromBigEndian(b[33..37]) == |ref.path.dir.container| && FromBigEndian(b[37..41]) == |ref.path.segment|
            && FromBigEndian(b[41..45]) == |ref.value|
            && b[45..p1] == ref.path.dir.namespace && b[p1..p2] == ref.path.dir.pod
            && b[p2..p3] == ref.path.dir.container && b[p3..p4] == ref.path.segment && b[p4..] == ref.value
  {
    hide Body, BigEndian, FromBigEndian, ToInt64;
    var b, body := Record(ref), Body(ref);
    WidthBounds();
    BigEndianRoundTrip(|body|, 4);
    assert b[0..4] == BigEndian(|body|, 4);
    BodyNumbers(ref);
    BodyLengths(ref);
    BodyTexts(ref);
    PastLength(BigEndian(|body|, 4), body);
  }

  /** Past a length of four bytes everything is four further on. */
  lemma PastLength(length: Text, body: Text)
    requires |length| == 4
    ensures forall i, j :: 4 <= i <= j <= |body| + 4 ==> (length + body)[i..j] == body[i - 4..j - 4]
  {
  }

  function AllCanonical(refs: seq<Reference>): (r: seq<Reference>)
    ensures |r| == |refs|
  {
    seq(|refs|, i requires 0 <= i < |refs| => Canonical(refs[i]))
  }

  /** How many records lie wholly in the first `n` bytes. */
  function WhollyInside(refs: seq<Reference>, n: nat): (k: nat)
    ensures k <= |refs|
  {
    if refs == [] || n < |Record(refs[0])| then 0
    else 1 + WhollyInside(refs[1..], n - |Record(refs[0])|)
  }

  lemma {:induction false} WhollyInsideExact(refs: seq<Reference>, n: nat)
    ensures |Records(refs[..WhollyInside(refs, n)])| <= n
    ensures forall k :: WhollyInside(refs, n) < k <= |refs| ==> n < |Records(refs[..k])|
  {
    hide Record;
    if refs != [] {
      var first := |Record(refs[0])|;
      if n >= first {
        WhollyInsideExact(refs[1..], n - first);
        HeadAndRest(refs, WhollyInside(refs, n));
      }
      forall k | WhollyInside(refs, n) < k <= |refs|
        ensures n < |Records(refs[..k])|
      {
        HeadAndRest(refs, k);
      }
    }
  }

  lemma HeadAndRest(refs: seq<Reference>, k: nat)
    requires 0 < k <= |refs|
    ensures Records(refs[..k]) == Record(refs[0]) + Records(refs[1..][..k - 1])
  {
    assert refs[..k][1..] == refs[1..][..k - 1];
  }

  lemma PrefixOfConcat(a: Text, b: Text, n: nat)
    requires n <= |a| + |b|
    ensures n <= |a| ==> (a + b)[..n] == a[..n]
    ensures n >= |a| ==> (a + b)[..n] == a + b[..n - |a|]
  {
  }

  lemma StepWhole(file: Text, pos: nat, ref: Reference)
    requires Fits(ref) && pos + |Record(ref)| <= |file|
    requires file[pos..pos + |Record(ref)|] == Record(ref)
    ensures ScanStep(file, pos) == Visit(Canonical(ref), pos + |Record(ref)|)
  {
    hide Record, Body, Decode;
    RecordParts(ref);
    SliceOfSuffix(file, Record(ref), pos, 0, 4);
    SliceOfSuffix(file, Record(ref), pos, 4, 4 + BodyLength(ref));
    DecodeBody(ref);
  }

  /** One whole record at `pos`. */
  lemma ScanWhole(file: Text, pos: nat, ref: Reference)
    requires Fits(ref) && pos + |Record(ref)| <= |file|
    requires file[pos..pos + |Record(ref)|] == Record(ref)
    ensures ScanFrom(file, pos)
         == var rest := ScanFrom(file, pos + |Record(ref)|); Scan([Canonical(ref)] + rest.refs, rest.ok)
  {
    hide Record, ScanStep;
    StepWhole(file, pos, ref);
  }

  lemma RecordParts(ref: Reference)
    requires Fits(ref)
    ensures Number(Record(ref), 0, 4) == BodyLength(ref)
    ensures Record(ref)[4..4 + BodyLength(ref)] == Body(ref)
  {
    WidthBounds();
    assert Record(ref)[0..4] == BigEndian(BodyLength(ref), 4);
    BigEndianRoundTrip(BodyLength(ref), 4);
  }

  /** A record cut short ends the scan without an error. */
  lemma ScanTorn(file: Text, pos: nat, ref: Reference)
    requires Fits(ref) && pos <= |file| && file[pos..] < Record(ref)
    ensures ScanFrom(file, pos) == Scan([], true)
  {
    if |file| - pos >= 4 {
      RecordParts(ref);
      assert file[pos..pos + 4] == Record(ref)[0..4] by {
        var m := |file| - pos;
        assert file[pos..] == Record(ref)[..m];
        forall i | 0 <= i < 4
          ensures file[pos + i] == Record(ref)[i]
        {
          assert file[pos..][i] == Record(ref)[..m][i];
        }
      }
    }
  }

  lemma ScanEnd(file: Text)
    ensures ScanFrom(file, |file|) == Scan([], true)
  {
  }

  lemma {:induction false} ScanPrefix(file: Text, pos: nat, refs: seq<Reference>, n: nat)
    requires forall i :: 0 <= i < |refs| ==> Fits(refs[i])
    requires pos <= |file| && n <= |Records(refs)| && file[pos..] == Records(refs)[..n]
    ensures ScanFrom(file, pos) == Scan(AllCanonical(refs[..WhollyInside(refs, n)]), true)
    decreases |refs|
  {
    hide Record, ScanStep, FromBigEndian;
    if refs == [] {
      ScanEnd(file);
    } else if n < |Record(refs[0])| {
      FirstRecordTorn(file, pos, refs, n);
    } else {
      var m := n - |Record(refs[0])|;
      FirstRecordWhole(file, pos, refs, n);
      ScanPrefix(file, pos + |Record(refs[0])|, refs[1..], m);
      CanonicalHead(refs, WhollyInside(refs[1..], m));
    }
  }

  lemma FirstRecordTorn(file: Text, pos: nat, refs: seq<Reference>, n: nat)
    requires refs != [] && Fits(refs[0]) && n < |Record(refs[0])|
    requires pos <= |file| && file[pos..] == Records(refs)[..n]
    ensures ScanFrom(file, pos) == Scan([], true)
  {
    hide Record, ScanFrom;
    PrefixOfConcat(Record(refs[0]), Records(refs[1..]), n);
    ScanTorn(file, pos, refs[0]);
  }

  lemma FirstRecordWhole(file: Text, pos: nat, refs: seq<Reference>, n: nat)
    requires refs != [] && Fits(refs[0]) && |Record(refs[0])| <= n <= |Records(refs)|
    requires pos <= |file| && file[pos..] == Records(refs)[..n]
    ensures var first := Record(refs[0]);
            && pos + |first| <= |file|
            && file[pos + |first|..] == Records(refs[1..])[..n - |first|]
            && ScanFrom(file, pos)
               == var rest := ScanFrom(file, pos + |first|); Scan([Canonical(refs[0])] + rest.refs, rest.ok)
  {
    hide Record, ScanFrom;
    var first, others := Record(refs[0]), Records(refs[1..]);
    PrefixOfConcat(first, others, n);
    TailsAgree(file, pos, first, others[..n - |first|]);
    ScanWhole(file, pos, refs[0]);
  }

  lemma TailsAgree(file: Text, pos: nat, first: Text, rest: Text)
    requires pos <= |file| && file[pos..] == first + rest
    ensures pos + |first| <= |file|
    ensures file[pos..pos + |first|] == first
    ensures file[pos + |first|..] == rest
  {
    assert |file| - pos == |first| + |rest|;
    assert file[pos + |first|..] == file[pos..][|first|..];
    assert file[pos..pos + |first|] == file[pos..][..|first|];
  }

  lemma CanonicalHead(refs: seq<Reference>, k: nat)
    requires k < |refs|
    ensures AllCanonical(refs[..k + 1]) == [Canonical(refs[0])] + AllCanonical(refs[1..][..k])
  {
  }

  /** Scanning any prefix of a shard file that contains the magic visits,
      without error, exactly the records wholly inside it. */
  lemma ScanShardPrefix(refs: seq<Reference>, n: nat)
    requires forall i :: 0 <= i < |refs| ==> Fits(refs[i])
    requires n <= |Records(refs)|
    ensures ScanFile((SHARD_MAGIC + Records(refs))[..4 + n]) == Scan(AllCanonical(refs[..WhollyInside(refs, n)]), true)
  {
    hide Record, Records, ScanFrom, Fits, WhollyInside, Canonical, AllCanonical;
    PrefixOfConcat(SHARD_MAGIC, Records(refs), 4 + n);
    var file := SHARD_MAGIC + Records(refs)[..n];
    assert file[4..] == Records(refs)[..n];
    ScanPrefix(file, 4, refs, n);
  }

  lemma AllInside(refs: seq<Reference>)
    ensures WhollyInside(refs, |Records(refs)|) == |refs|
  {
    WhollyInsideExact(refs, |Records(refs)|);
    assert refs[..|refs|] == refs;
  }

  /** The whole file: exactly the list that was encoded. */
  lemma ScanRoundTrip(refs: seq<Reference>)
    requires forall i :: 0 <= i < |refs| ==> Fits(refs[i])
    ensures ScanFile(SHARD_MAGIC + Records(refs)) == Scan(AllCanonical(refs), true)
  {
    hide Record, Records, ScanFile, ScanFrom, Fits, WhollyInside, Canonical, AllCanonical;
    ScanShardPrefix(refs, |Records(refs)|);
    AllInside(refs);
    assert refs[..|refs|] == refs;
    var file := SHARD_MAGIC + Records(refs);
    assert file[..4 + |Records(refs)|] == file;
  }
}
