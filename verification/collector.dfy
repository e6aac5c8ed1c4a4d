/** The partial-line reassembly loop of the node-file tail (runFileTail). */
module Collector {
  import opened Bytes
  import opened Lines
  import opened Seqs

  /** One parsed source line: a P (partial) or an F (full) piece. */
  datatype Piece = Piece(ts: Time, content: Text, partial: bool)

  datatype LogLine = LogLine(ts: Time, content: Text)

  function Concat(parts: seq<Piece>): Text {
    if parts == [] then [] else Concat(parts[..|parts| - 1]) + parts[|parts| - 1].content
  }

  /** A line's time is that of its first piece with any content. */
  function StartTime(parts: seq<Piece>, last: Piece): Time {
    if parts == [] then last.ts
    else if parts[0].content != [] then parts[0].ts
    else StartTime(parts[1..], last)
  }

  /** The logical lines of a file: runs of P pieces, each ended by an F piece,
      joined whole. `pending` are the P pieces of the run not yet ended. */
  function Logical(pieces: seq<Piece>, pending: seq<Piece>): seq<LogLine> {
    if pieces == [] then []
    else if pieces[0].partial then Logical(pieces[1..], pending + [pieces[0]])
    else [LogLine(StartTime(pending, pieces[0]), Concat(pending) + pieces[0].content)] + Logical(pieces[1..], [])
  }

  /** A run of partial pieces and the full one that ends it are one line: their
      contents in order, at the time of the first with any, or of the last. */
  lemma LogicalSpelledOut(parts: seq<Piece>, last: Piece, rest: seq<Piece>) returns (k: nat)
    requires (forall i :: 0 <= i < |parts| ==> parts[i].partial) && !last.partial
    ensures k <= |parts|
    ensures forall i :: 0 <= i < k ==> parts[i].content == []
    ensures k < |parts| ==> parts[k].content != []
    ensures Logical(parts + [last] + rest, [])
         == [LogLine((parts + [last])[k].ts, Joined(Mapped((p: Piece) => p.content, parts + [last])))]
            + Logical(rest, [])
  {
    hide Joined, StartTime, Mapped;
    RunEnds(parts, last, rest, []);
    assert [] + parts == parts;
    ContentsJoined(parts, last);
    k := FirstWithContent(parts, last);
  }

  lemma {:induction false} RunEnds(parts: seq<Piece>, last: Piece, rest: seq<Piece>, pending: seq<Piece>)
    requires (forall i :: 0 <= i < |parts| ==> parts[i].partial) && !last.partial
    ensures Logical(parts + [last] + rest, pending)
         == [LogLine(StartTime(pending + parts, last), Concat(pending + parts) + last.content)] + Logical(rest, [])
    decreases |parts|
  {
    hide StartTime, Concat;
    var all := parts + [last] + rest;
    if parts == [] {
      assert pending + parts == pending && all[1..] == rest;
    } else {
      assert all[1..] == parts[1..] + [last] + rest;
      assert pending + [parts[0]] + parts[1..] == pending + parts;
      RunEnds(parts[1..], last, rest, pending + [parts[0]]);
    }
  }

  lemma {:induction false} ContentsJoined(parts: seq<Piece>, last: Piece)
    ensures Concat(parts) + last.content == Joined(Mapped((p: Piece) => p.content, parts + [last]))
    decreases |parts|
  {
    hide Joined;
    var content := (p: Piece) => p.content;
    assert Mapped(content, parts + [last]) == Mapped(content, parts) + [last.content];
    JoinedMore(Mapped(content, parts), last.content);
    if parts == [] {
      assert Mapped(content, parts) == [];
      NothingJoined();
    } else {
      var n := |parts| - 1;
      ContentsJoined(parts[..n], parts[n]);
      assert parts == parts[..n] + [parts[n]];
    }
  }

  lemma NothingJoined()
    ensures Joined<byte>([]) == []
  {
  }

  lemma {:induction false} FirstWithContent(parts: seq<Piece>, last: Piece) returns (k: nat)
    ensures k <= |parts| && StartTime(parts, last) == (parts + [last])[k].ts
    ensures forall i :: 0 <= i < k ==> parts[i].content == []
    ensures k < |parts| ==> parts[k].content != []
  {
    if parts == [] || parts[0].content != [] {
      k := 0;
    } else {
      k := FirstWithContent(parts[1..], last);
      k := k + 1;
    }
  }

  /** A run that is not ended yet is no line. */
  lemma {:induction false} UnendedRun(parts: seq<Piece>, pending: seq<Piece>)
    requires forall i :: 0 <= i < |parts| ==> parts[i].partial
    ensures Logical(parts, pending) == []
  {
    if parts != [] {
      UnendedRun(parts[1..], pending + [parts[0]]);
    }
  }

  /** The text put before a line's content; it is never empty. */
  function Prefix(stamp: Text, namespace: Text, pod: Text, container: Text): (p: Text)
    ensures p != []
  {
    stamp + [0x20, 0x5B] + namespace + [0x2F] + pod + [0x2F] + container + [0x5D, 0x20]
  }

  function StoredLine(stamp: Text, namespace: Text, pod: Text, container: Text, content: Text): Text {
    Prefix(stamp, namespace, pod, container) + content
  }

  /** Both are the same content, or both reach the cap and agree up to it. */
  ghost predicate SameUpToCap(a: Text, b: Text) {
    a == b || (|a| >= MAX_LINE_BYTES && |b| >= MAX_LINE_BYTES && a[..MAX_LINE_BYTES] == b[..MAX_LINE_BYTES])
  }

  /** Contents that agree up to the cap are stored as the same line. */
  lemma StoredAlike(stamp: Text, namespace: Text, pod: Text, container: Text, a: Text, b: Text)
    requires SameUpToCap(a, b)
    ensures Capped(StoredLine(stamp, namespace, pod, container, a))
              == Capped(StoredLine(stamp, namespace, pod, container, b))
  {
    if a != b {
      var p := Prefix(stamp, namespace, pod, container);
      forall i | 0 <= i < MAX_LINE_BYTES
        ensures (p + a)[i] == (p + b)[i]
      {
        assert i >= |p| ==> a[..MAX_LINE_BYTES][i - |p|] == b[..MAX_LINE_BYTES][i - |p|];
      }
      assert (p + a)[..MAX_LINE_BYTES] == (p + b)[..MAX_LINE_BYTES];
      CappedByPrefix(p + a, p + b);
    }
  }

  lemma SameUpToCapAppend(a: Text, b: Text, more: Text)
    requires SameUpToCap(a, b)
    ensures SameUpToCap(a + more, b + more)
    ensures |a| >= MAX_LINE_BYTES ==> SameUpToCap(a, b + more)
  {
    if |a| >= MAX_LINE_BYTES {
      assert (a + more)[..MAX_LINE_BYTES] == a[..MAX_LINE_BYTES];
      assert (b + more)[..MAX_LINE_BYTES] == b[..MAX_LINE_BYTES];
    }
  }

  lemma {:induction false} StartTimeGrows(parts: seq<Piece>, piece: Piece, last: Piece)
    ensures StartTime(parts + [piece], last)
         == if Concat(parts) != [] then StartTime(parts, last)
            else if piece.content != [] then piece.ts else last.ts
  {
    if parts == [] {
      assert StartTime([], last) == last.ts;
      assert ([] + [piece])[1..] == [];
    } else {
      assert (parts + [piece])[1..] == parts[1..] + [piece];
      StartTimeGrows(parts[1..], piece, last);
      ConcatHead(parts);
    }
  }

  lemma {:induction false} ConcatHead(parts: seq<Piece>)
    requires parts != []
    ensures Concat(parts) == parts[0].content + Concat(parts[1..])
  {
    var n := |parts| - 1;
    if n > 0 {
      ConcatHead(parts[..n]);
      assert parts[..n][1..] == parts[1..][..n - 1];
    }
  }

  /** The loop's buffer and time stand for the run `pending`. */
  ghost predicate Tracks(partial: Text, partialTS: Time, pending: seq<Piece>) {
    && SameUpToCap(partial, Concat(pending))
    && forall last :: StartTime(pending, last) == if partial != [] then partialTS else last.ts
  }

  lemma TracksPartial(partial: Text, partialTS: Time, pending: seq<Piece>, piece: Piece)
    requires Tracks(partial, partialTS, pending)
    ensures Tracks(if |partial| < MAX_LINE_BYTES then partial + piece.content else partial,
                   if |partial| == 0 then piece.ts else partialTS, pending + [piece])
  {
    SameUpToCapAppend(partial, Concat(pending), piece.content);
    assert (pending + [piece])[..|pending|] == pending;
    forall last
      ensures StartTime(pending + [piece], last)
           == if Concat(pending) != [] then StartTime(pending, last)
              else if piece.content != [] then piece.ts else last.ts
    {
      StartTimeGrows(pending, piece, last);
    }
  }

  lemma NothingTracked(partialTS: Time)
    ensures Tracks([], partialTS, [])
  {
  }

  ghost predicate StoresAs(got: LogLine, want: LogLine) {
    && got.ts == want.ts
    && forall stamp, ns, pod, container ::
         Capped(StoredLine(stamp, ns, pod, container, got.content))
         == Capped(StoredLine(stamp, ns, pod, container, want.content))
  }

  lemma TracksFull(partial: Text, partialTS: Time, pending: seq<Piece>, piece: Piece)
    requires Tracks(partial, partialTS, pending)
    ensures StoresAs(LogLine(if partial != [] then partialTS else piece.ts, partial + piece.content),
                     LogLine(StartTime(pending, piece), Concat(pending) + piece.content))
  {
    SameUpToCapAppend(partial, Concat(pending), piece.content);
    forall stamp, ns, pod, container
      ensures Capped(StoredLine(stamp, ns, pod, container, partial + piece.content))
           == Capped(StoredLine(stamp, ns, pod, container, Concat(pending) + piece.content))
    {
      StoredAlike(stamp, ns, pod, container, partial + piece.content, Concat(pending) + piece.content);
    }
  }

  /** Stopping the partial buffer once it reaches the cap is invisible: every
      line comes out with its logical line's time and is stored just as the
      whole concatenation would be. */
  method Reassemble(pieces: seq<Piece>) returns (lines: seq<LogLine>)
    ensures |lines| == |Logical(pieces, [])|
    ensures forall i :: 0 <= i < |lines| ==> StoresAs(lines[i], Logical(pieces, [])[i])
  {
    hide Tracks, StoresAs, StartTime, Concat, MAX_LINE_BYTES;
    lines := [];
    var partial: Text, partialTS := [], 0;
    NothingTracked(partialTS);
    ghost var pending: seq<Piece>, done: seq<LogLine> := [], [];
    for k := 0 to |pieces|
      invariant Tracks(partial, partialTS, pending)
      invariant |lines| == |done| && Logical(pieces, []) == done + Logical(pieces[k..], pending)
      invariant forall i :: 0 <= i < |lines| ==> StoresAs(lines[i], done[i])
    {
      var piece := pieces[k];
      assert pieces[k..][0] == piece && pieces[k..][1..] == pieces[k + 1..];
      if piece.partial {
        TracksPartial(partial, partialTS, pending, piece);
        if |partial| == 0 {
          partialTS := piece.ts;
        }
        if |partial| < MAX_LINE_BYTES {
          partial := partial + piece.content;
        }
        pending := pending + [piece];
      } else {
        TracksFull(partial, partialTS, pending, piece);
        var content, lineTS := piece.content, piece.ts;
        assert [] + piece.content == piece.content;
        if |partial| > 0 {
          content := partial + piece.content;
          partial := [];
          lineTS := partialTS;
        }
        lines := lines + [LogLine(lineTS, content)];
        done := done + [LogLine(StartTime(pending, piece), Concat(pending) + piece.content)];
        pending := [];
        NothingTracked(partialTS);
      }
    }
  }
}
