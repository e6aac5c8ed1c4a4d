/** Stored lines: the size cap, the bounded line reader, and how a segment's
    bytes split into lines (storage/lines.go and the readers' ReadString). */
module Lines {
  import opened Bytes

  const NL: byte := 10
  const CR: byte := 13

  const MAX_LINE_BYTES := 0x10_0000

  /** " …[truncated]" in UTF-8. */
  const MARKER: Text := [0x20] + ELLIPSIS + TRUNCATED
  const ELLIPSIS: Text := [0xE2, 0x80, 0xA6]
  const TRUNCATED: Text := [0x5B, 0x74, 0x72, 0x75, 0x6E, 0x63, 0x61, 0x74, 0x65, 0x64, 0x5D]

  // ----- UTF-8, section 4 of RFC 3629 -----

  predicate Tail(b: byte) {
    0x80 <= b <= 0xBF
  }

  predicate RuneStart(b: byte) {
    !Tail(b)
  }

  /** Length of the well-formed character `s` begins with, or 0. */
  function CharLen(s: Text): (n: nat)
    ensures n <= |s| && n <= 4
    ensures forall i :: 0 < i < n ==> Tail(s[i])
    ensures n > 0 ==> RuneStart(s[0])
  {
    if s == [] then 0
    else if s[0] <= 0x7F then 1
    else if |s| < 2 || !Tail(s[1]) then 0
    else if 0xC2 <= s[0] <= 0xDF then 2
    else if |s| < 3 || !Tail(s[2]) then 0
    else if s[0] == 0xE0 then (if 0xA0 <= s[1] then 3 else 0)
    else if s[0] == 0xED then (if s[1] <= 0x9F then 3 else 0)
    else if 0xE1 <= s[0] <= 0xEF then 3
    else if |s| < 4 || !Tail(s[3]) then 0
    else if s[0] == 0xF0 then (if 0x90 <= s[1] then 4 else 0)
    else if s[0] == 0xF4 then (if s[1] <= 0x8F then 4 else 0)
    else if 0xF1 <= s[0] <= 0xF3 then 4
    else 0
  }

  predicate ValidUtf8(s: Text) {
    s == [] || (CharLen(s) > 0 && ValidUtf8(s[CharLen(s)..]))
  }

  lemma CharLenLocal(s: Text, t: Text)
    requires CharLen(s) > 0 && s[..CharLen(s)] <= t
    ensures CharLen(t) == CharLen(s)
  {
    var n := CharLen(s);
    assert forall i :: 0 <= i < n ==> t[i] == s[..n][i];
  }

  lemma FirstCharThenRest(a: Text, b: Text, n: nat)
    requires n == CharLen(a) > 0 && ValidUtf8(a[n..] + b)
    ensures ValidUtf8(a + b)
  {
    var s := a + b;
    assert s[..n] == a[..n] && s[n..] == a[n..] + b;
    CharLenLocal(a, s);
  }

  lemma {:induction false} AsciiIsUtf8(s: Text)
    requires forall i :: 0 <= i < |s| ==> s[i] <= 0x7F
    ensures ValidUtf8(s)
  {
    if s != [] {
      AsciiIsUtf8(s[1..]);
    }
  }

  lemma {:induction false} Utf8Concat(a: Text, b: Text)
    requires ValidUtf8(a) && ValidUtf8(b)
    ensures ValidUtf8(a + b)
  {
    if a == [] {
      assert a + b == b;
    } else {
      var n := CharLen(a);
      Utf8Concat(a[n..], b);
      FirstCharThenRest(a, b, n);
    }
  }

  /** Cutting valid text before the start of a character leaves valid text. */
  lemma {:induction false} Utf8Prefix(s: Text, cut: nat)
    requires ValidUtf8(s) && cut < |s| && RuneStart(s[cut])
    ensures ValidUtf8(s[..cut])
  {
    if cut > 0 {
      var n := CharLen(s);
      Utf8Prefix(s[n..], cut - n);
      assert s[..cut][n..] == s[n..][..cut - n];
      CharLenLocal(s, s[..cut]);
    }
  }

  /** A character is at most four bytes, so its start is near. */
  lemma {:induction false} RuneStartNear(s: Text, i: nat) returns (j: nat)
    requires ValidUtf8(s) && i < |s|
    ensures i - 3 <= j <= i && RuneStart(s[j])
  {
    var n := CharLen(s);
    if i < n {
      j := 0;
    } else {
      j := RuneStartNear(s[n..], i - n);
      j := j + n;
    }
  }

  // ----- CapLine -----

  /** The last character start at or before `cut`, or 0. */
  function CutPoint(line: Text, cut: nat): (c: nat)
    requires cut < |line|
    ensures c <= cut
    ensures c == 0 || RuneStart(line[c])
    ensures forall i :: c < i <= cut ==> Tail(line[i])
  {
    if cut == 0 || RuneStart(line[cut]) then cut else CutPoint(line, cut - 1)
  }

  function Capped(line: Text): (r: Text)
    ensures |r| <= MAX_LINE_BYTES
  {
    if |line| <= MAX_LINE_BYTES then line
    else line[..CutPoint(line, MAX_LINE_BYTES - |MARKER|)] + MARKER
  }

  method CapLine(line: Text) returns (r: Text)
    ensures r == Capped(line)
  {
    if |line| <= MAX_LINE_BYTES {
      return line;
    }
    var cut := MAX_LINE_BYTES - |MARKER|;
    while cut > 0 && !RuneStart(line[cut])
      invariant 0 <= cut <= MAX_LINE_BYTES - |MARKER|
      invariant CutPoint(line, cut) == CutPoint(line, MAX_LINE_BYTES - |MARKER|)
    {
      cut := cut - 1;
    }
    r := line[..cut] + MARKER;
  }

  lemma MarkerIsUtf8()
    ensures ValidUtf8(MARKER)
  {
    assert ValidUtf8(ELLIPSIS) by {
      assert CharLen(ELLIPSIS) == 3 && ELLIPSIS[3..] == [];
    }
    AsciiIsUtf8([0x20]);
    AsciiIsUtf8(TRUNCATED);
    Utf8Concat([0x20], ELLIPSIS);
    Utf8Concat([0x20] + ELLIPSIS, TRUNCATED);
  }

  /** Capping keeps valid UTF-8 valid, is idempotent, and of a valid line
      keeps all but at most three of the bytes there is room for. */
  lemma CappedKeepsUtf8(line: Text)
    ensures Capped(Capped(line)) == Capped(line)
    ensures ValidUtf8(line) ==> ValidUtf8(Capped(line))
    ensures ValidUtf8(line) && |line| > MAX_LINE_BYTES ==>
              exists kept: nat :: MAX_LINE_BYTES - |MARKER| - 3 <= kept <= |line|
                                  && Capped(line) == line[..kept] + MARKER
  {
    if ValidUtf8(line) && |line| > MAX_LINE_BYTES {
      var room := MAX_LINE_BYTES - |MARKER|;
      var cut := CutPoint(line, room);
      var near := RuneStartNear(line, room);
      assert room - 3 <= cut;
      Utf8Prefix(line, cut);
      MarkerIsUtf8();
      Utf8Concat(line[..cut], MARKER);
    }
  }

  /** Of a line over the cap at most three bytes of the room are lost if and only
      if a character starts in the last four places of it. */
  lemma CutLosesLittleExactly(line: Text)
    requires |line| > MAX_LINE_BYTES
    ensures var room := MAX_LINE_BYTES - |MARKER|;
            |Capped(line)| >= MAX_LINE_BYTES - 3 <==> exists i :: room - 3 <= i <= room && RuneStart(line[i])
  {
    var room := MAX_LINE_BYTES - |MARKER|;
    var cut := CutPoint(line, room);
    if cut >= room - 3 {
      assert RuneStart(line[cut]);
    }
  }

  /** Nothing but the marker is kept exactly when the room holds no character
      start past its first byte, as in a line of continuation bytes alone. */
  lemma OnlyMarkerExactly(line: Text)
    requires |line| > MAX_LINE_BYTES
    ensures Capped(line) == MARKER <==> forall i :: 0 < i <= MAX_LINE_BYTES - |MARKER| ==> Tail(line[i])
  {
    var room := MAX_LINE_BYTES - |MARKER|;
    if Capped(line) == MARKER {
      assert |Capped(line)| == CutPoint(line, room) + |MARKER|;
    }
  }

  lemma StrayTailsLost() returns (line: Text)
    ensures |line| == MAX_LINE_BYTES + 1 && (forall i :: 0 <= i < |line| ==> Tail(line[i])) && Capped(line) == MARKER
  {
    line := seq(MAX_LINE_BYTES + 1, _ => 0x80);
    OnlyMarkerExactly(line);
  }

  /** Two lines over the cap are stored alike when they agree up to the cap. */
  lemma CappedByPrefix(a: Text, b: Text)
    requires |a| > MAX_LINE_BYTES && |b| > MAX_LINE_BYTES
    requires a[..MAX_LINE_BYTES] == b[..MAX_LINE_BYTES]
    ensures Capped(a) == Capped(b)
  {
    CutPointByPrefix(a, b, MAX_LINE_BYTES - |MARKER|);
    var cut := CutPoint(a, MAX_LINE_BYTES - |MARKER|);
    assert a[..cut] == a[..MAX_LINE_BYTES][..cut];
    assert b[..cut] == b[..MAX_LINE_BYTES][..cut];
  }

  lemma {:induction false} CutPointByPrefix(a: Text, b: Text, cut: nat)
    requires |a| > MAX_LINE_BYTES && |b| > MAX_LINE_BYTES && cut < MAX_LINE_BYTES
    requires a[..MAX_LINE_BYTES] == b[..MAX_LINE_BYTES]
    ensures CutPoint(a, cut) == CutPoint(b, cut)
  {
    assert a[cut] == a[..MAX_LINE_BYTES][cut] == b[cut];
    if cut > 0 {
      CutPointByPrefix(a, b, cut - 1);
    }
  }

  // ----- Splitting bytes into lines -----

  /** End of the raw line starting at `pos`: past its newline, or the end. */
  function LineEnd(b: Text, pos: nat): (e: nat)
    requires pos <= |b|
    ensures pos <= e <= |b| && (pos < |b| ==> pos < e)
    ensures forall i :: pos <= i < e - 1 ==> b[i] != NL
    ensures e < |b| ==> b[e - 1] == NL
    decreases |b| - pos
  {
    if pos == |b| then pos
    else if b[pos] == NL then pos + 1
    else LineEnd(b, pos + 1)
  }

  /** strings.TrimRight(raw, "\r\n") */
  function TrimEol(raw: Text): (r: Text)
    ensures r <= raw
    ensures r != [] ==> r[|r| - 1] != NL && r[|r| - 1] != CR
  {
    if raw != [] && (raw[|raw| - 1] == NL || raw[|raw| - 1] == CR) then TrimEol(raw[..|raw| - 1]) else raw
  }

  /** All it removes is newlines and carriage returns. */
  lemma {:induction false} TrimEolSpelledOut(raw: Text)
    ensures var r := TrimEol(raw);
            && r == raw[..|r|]
            && (r == [] || (r[|r| - 1] != 10 && r[|r| - 1] != 13))
            && forall i :: |r| <= i < |raw| ==> raw[i] == 10 || raw[i] == 13
  {
    if raw != [] && (raw[|raw| - 1] == NL || raw[|raw| - 1] == CR) {
      TrimEolSpelledOut(raw[..|raw| - 1]);
    }
  }

  datatype Located = Located(offset: nat, text: Text)

  /** The lines that start at or after `pos`, itself a line start. */
  function LinesFrom(b: Text, pos: nat): (ls: seq<Located>)
    requires pos <= |b|
    ensures |ls| <= |b| - pos
    decreases |b| - pos
  {
    if pos == |b| then []
    else
      var e := LineEnd(b, pos);
      [Located(pos, TrimEol(b[pos..e]))] + LinesFrom(b, e)
  }

  function Texts(ls: seq<Located>): (r: seq<Text>)
    ensures |r| == |ls|
  {
    seq(|ls|, i requires 0 <= i < |ls| => ls[i].text)
  }

  /** Every line starts at `pos` or after a newline, and its text is the bytes
      at its own offset. */
  lemma {:induction false} LineStarts(b: Text, pos: nat)
    requires pos <= |b|
    ensures forall l :: l in LinesFrom(b, pos) ==>
              && pos <= l.offset < |b|
              && (l.offset == pos || b[l.offset - 1] == NL)
              && l.text == TrimEol(b[l.offset..LineEnd(b, l.offset)])
              && l.offset + |l.text| <= |b|
              && b[l.offset..l.offset + |l.text|] == l.text
    decreases |b| - pos
  {
    hide TrimEol;
    if pos < |b| {
      var e := LineEnd(b, pos);
      LineStarts(b, e);
      TextAtOffset(b, pos, e);
    }
  }

  lemma TextAtOffset(b: Text, pos: nat, e: nat)
    requires pos <= e <= |b|
    ensures var text := TrimEol(b[pos..e]);
            pos + |text| <= e && b[pos..pos + |text|] == text
  {
    var raw, n := b[pos..e], |TrimEol(b[pos..e])|;
    assert raw[..n] == b[pos..pos + n];
  }

  /** A line readers give back unchanged: no newline in it, no CR at its end. */
  predicate Plain(line: Text) {
    NL !in line && (line != [] ==> line[|line| - 1] != CR)
  }

  /** Every line in `b` is terminated. */
  predicate Whole(b: Text) {
    b != [] ==> b[|b| - 1] == NL
  }

  lemma LineEndAppend(b: Text, more: Text, pos: nat)
    requires Whole(b) && pos < |b|
    ensures LineEnd(b + more, pos) == LineEnd(b, pos)
  {
    var e, f := LineEnd(b, pos), LineEnd(b + more, pos);
    assert (b + more)[e - 1] == b[e - 1] == NL;
    assert forall i :: pos <= i < e ==> (b + more)[i] == b[i];
  }

  lemma {:induction false} TrimOne(line: Text)
    requires Plain(line)
    ensures TrimEol(line + [NL]) == line
  {
    assert (line + [NL])[..|line|] == line;
    assert line != [] ==> line[|line| - 1] in line;
  }

  function Stored(line: Text): Text {
    line + [NL]
  }

  lemma LastLineEnd(b: Text, line: Text, pos: nat)
    requires NL !in line && |b| <= pos <= |b| + |line|
    ensures LineEnd(b + Stored(line), pos) == |b| + |line| + 1
    decreases |line| + |b| - pos
  {
    if pos < |b| + |line| {
      assert (b + Stored(line))[pos] == line[pos - |b|];
      LastLineEnd(b, line, pos + 1);
    }
  }

  /** The one line written at the end of a whole file. */
  lemma LastLine(b: Text, line: Text)
    requires Plain(line)
    ensures LinesFrom(b + Stored(line), |b|) == [Located(|b|, line)]
  {
    LastLineEnd(b, line, |b|);
    TrimOne(line);
    OnlyLine(b + Stored(line), |b|, Stored(line));
  }

  lemma OnlyLine(b: Text, pos: nat, raw: Text)
    requires pos < |b| && LineEnd(b, pos) == |b| && b[pos..] == raw
    ensures LinesFrom(b, pos) == [Located(pos, TrimEol(raw))]
  {
    assert b[pos..|b|] == raw;
    assert LinesFrom(b, |b|) == [];
  }

  /** The lines of a file that is whole up to some place are those before it
      and those from it on. */
  lemma {:induction false} SplitLines(b: Text, more: Text, pos: nat)
    requires Whole(b) && pos <= |b|
    ensures LinesFrom(b + more, pos) == LinesFrom(b, pos) + LinesFrom(b + more, |b|)
    decreases |b| - pos
  {
    hide LinesFrom, TrimEol, Whole;
    if pos < |b| {
      var e := LineEnd(b, pos);
      LineEndAppend(b, more, pos);
      SplitLines(b, more, e);
      assert (b + more)[pos..e] == b[pos..e];
      FirstLine(b, pos);
      FirstLine(b + more, pos);
    } else {
      NoLinesAtEnd(b);
    }
  }

  lemma FirstLine(b: Text, pos: nat)
    requires pos < |b|
    ensures LinesFrom(b, pos) == [Located(pos, TrimEol(b[pos..LineEnd(b, pos)]))] + LinesFrom(b, LineEnd(b, pos))
  {
  }

  /** Writing one more line adds it to the lines and moves none of them. */
  lemma AppendLine(b: Text, line: Text, pos: nat)
    requires Whole(b) && Plain(line) && pos <= |b|
    ensures LinesFrom(b + Stored(line), pos) == LinesFrom(b, pos) + [Located(|b|, line)]
  {
    hide LinesFrom;
    SplitLines(b, Stored(line), pos);
    LastLine(b, line);
  }

  // ----- Unfinished lines -----

  /** Where the bytes after the last newline start. */
  function TailStart(b: Text): (s: nat)
    ensures s <= |b| && Whole(b[..s]) && NL !in b[s..]
    ensures s == |b| <==> Whole(b)
  {
    if b == [] || b[|b| - 1] == NL then |b|
    else
      assert b == b[..|b| - 1] + [b[|b| - 1]];
      TailStart(b[..|b| - 1])
  }

  /** The bytes after the last newline: a line cut short, if there are any. */
  function Unfinished(b: Text): (r: Text)
    ensures NL !in r && (r == [] <==> Whole(b))
  {
    b[TailStart(b)..]
  }

  /** At most one line: no newline but perhaps a last one. */
  predicate OneLine(x: Text) {
    x != [] ==> NL !in x[..|x| - 1]
  }

  /** Whatever piece of a line goes to the end of a file, it changes only the
      unfinished line there, or starts one. */
  lemma AppendPiece(b: Text, x: Text)
    requires OneLine(x)
    ensures var s, last := TailStart(b), Unfinished(b) + x;
            LinesFrom(b + x, 0) == LinesFrom(b[..s], 0) + if last == [] then [] else [Located(s, TrimEol(last))]
  {
    hide LinesFrom, TailStart, TrimEol;
    var s, last := TailStart(b), Unfinished(b) + x;
    assert b[..s] + last == b + x;
    SplitLines(b[..s], last, 0);
    if last == [] {
      NoLinesAtEnd(b + x);
    } else {
      assert (b + x)[s..] == last;
      OneLineEnd(b + x, s, last);
      OnlyLine(b + x, s, last);
    }
  }

  lemma NoLinesAtEnd(b: Text)
    ensures LinesFrom(b, |b|) == []
  {
  }

  lemma OneLineEnd(b: Text, s: nat, last: Text)
    requires s < |b| && b[s..] == last && NL !in last[..|last| - 1]
    ensures LineEnd(b, s) == |b|
  {
    forall i | s <= i < |b| - 1
      ensures b[i] != NL
    {
      assert b[i] == last[..|last| - 1][i - s];
    }
  }

  /** The same for the file as it is. */
  lemma LinesSplit(b: Text)
    ensures var s := TailStart(b);
            LinesFrom(b, 0) == LinesFrom(b[..s], 0) + if Whole(b) then [] else [Located(s, TrimEol(Unfinished(b)))]
  {
    hide LinesFrom, TailStart, TrimEol;
    AppendPiece(b, []);
    assert b + [] == b && Unfinished(b) + [] == Unfinished(b);
  }

  // ----- Lines by their place -----

  /** The line at a place in a file. */
  function LineAt(b: Text, pos: nat): Text
    requires pos <= |b|
  {
    TrimEol(b[pos..LineEnd(b, pos)])
  }

  /** The line at any boundary is one of the file's lines. */
  lemma {:induction false} LineAtBoundary(b: Text, pos: nat, from: nat := 0)
    requires from <= pos < |b|
    requires pos == from || b[pos - 1] == NL
    ensures Located(pos, LineAt(b, pos)) in LinesFrom(b, from)
    decreases |b| - from
  {
    if from < pos {
      var e := LineEnd(b, from);
      assert e <= pos;
      LineAtBoundary(b, pos, e);
    }
  }

  /** The stored form of `text` is at `offset`. */
  predicate Holds(b: Text, offset: nat, text: Text) {
    && Plain(text) && offset + |text| < |b|
    && b[offset..offset + |text| + 1] == Stored(text)
  }

  /** The reader finds a whole stored line as it is, if it starts a line at all. */
  lemma HeldLine(b: Text, text: Text, l: Located)
    requires Holds(b, l.offset, text) && l in LinesFrom(b, 0)
    ensures l.text == text
  {
    LineStarts(b, 0);
    HeldEnd(b, l.offset, text);
    TrimOne(text);
  }

  lemma HeldEnd(b: Text, offset: nat, text: Text)
    requires Holds(b, offset, text)
    ensures LineEnd(b, offset) == offset + |text| + 1
  {
    var got := b[offset..offset + |text| + 1];
    assert got[|text|] == NL;
    forall i | offset <= i < offset + |text|
      ensures b[i] != NL
    {
      assert b[i] == got[i - offset] == text[i - offset];
    }
  }

  /** A stored line is one that readers find if and only if it starts one. */
  lemma HeldIsLine(b: Text, offset: nat, text: Text)
    requires Holds(b, offset, text)
    ensures Located(offset, text) in LinesFrom(b, 0) <==> offset == 0 || b[offset - 1] == NL
  {
    hide LinesFrom;
    LineStarts(b, 0);
    if offset == 0 || b[offset - 1] == NL {
      LineAtBoundary(b, offset);
      HeldEnd(b, offset, text);
      TrimOne(text);
    }
  }

  /** Every line that readers find is plain. */
  lemma {:induction false} LinesArePlain(b: Text, pos: nat)
    requires pos <= |b|
    ensures forall l: Located :: l in LinesFrom(b, pos) ==> Plain(l.text)
    decreases |b| - pos
  {
    hide TrimEol;
    if pos < |b| {
      var e := LineEnd(b, pos);
      TrimmedIsPlain(b[pos..e]);
      LinesArePlain(b, e);
    }
  }

  lemma TrimmedIsPlain(raw: Text)
    requires OneLine(raw)
    ensures Plain(TrimEol(raw))
  {
    var r := TrimEol(raw);
    forall i | 0 <= i < |r|
      ensures r[i] != NL
    {
      if i < |raw| - 1 {
        assert raw[..|raw| - 1][i] == raw[i];
      }
    }
  }

  lemma CappedPlain(line: Text)
    requires Plain(line)
    ensures Plain(Capped(line))
  {
  }

  // ----- ReadCappedLine -----

  /** trimNewline: at most one newline, then at most one CR. */
  function TrimNewline(b: Text): Text {
    var c := if b != [] && b[|b| - 1] == NL then b[..|b| - 1] else b;
    if c != [] && c[|c| - 1] == CR then c[..|c| - 1] else c
  }

  /** What it leaves of every possible ending. */
  lemma TrimNewlineSpelledOut(x: Text)
    ensures TrimNewline(x + [13, 10]) == x && TrimNewline(x + [13]) == x
    ensures x == [] || x[|x| - 1] != 13 ==> TrimNewline(x + [10]) == x
    ensures x == [] || (x[|x| - 1] != 13 && x[|x| - 1] != 10) ==> TrimNewline(x) == x
  {
    hide TrimNewline;
    TrimsLast(x);
    TrimsLast(x + [13]);
    assert x + [13, 10] == x + [13] + [10];
  }

  lemma TrimsLast(x: Text)
    ensures TrimNewline(x + [13]) == x
    ensures TrimNewline(x + [10]) == if x != [] && x[|x| - 1] == 13 then x[..|x| - 1] else x
    ensures x == [] || (x[|x| - 1] != 13 && x[|x| - 1] != 10) ==> TrimNewline(x) == x
  {
    assert (x + [13])[..|x|] == x;
    assert (x + [10])[..|x|] == x;
  }

  function Clip(k: nat, s: Text): Text {
    if k < |s| then s[..k] else s
  }

  lemma ClipGrows(k: nat, s: Text, i: nat, j: nat)
    requires i <= j <= |s|
    ensures var got := Clip(k, s[..i]);
            Clip(k, s[..j]) == if k > |got| then got + Clip(k - |got|, s[i..j]) else got
  {
    if k < j {
      assert s[..j][..k] == s[..k];
      if k < i {
        assert s[..i][..k] == s[..k];
      }
    }
  }

  /** bufio.Reader.ReadSlice('\n'): up to a newline, a full buffer or the end. */
  method ReadSlice(src: Text, pos: nat, bufSize: nat) returns (end: nat)
    requires pos <= |src| && bufSize > 0
    ensures pos <= end <= LineEnd(src, pos)
    ensures end < LineEnd(src, pos) ==>
              end == pos + bufSize && src[end - 1] != NL && LineEnd(src, end) == LineEnd(src, pos)
  {
    end := pos;
    while end < pos + bufSize && end < |src|
      invariant pos <= end <= pos + bufSize && end <= |src|
      invariant forall i :: pos <= i < end ==> src[i] != NL
      invariant LineEnd(src, end) == LineEnd(src, pos)
    {
      end := end + 1;
      if src[end - 1] == NL {
        return;
      }
    }
  }

  /** Reads one raw line of `src`, a buffer of `bufSize` bytes at a time, and
      keeps its first `maxBytes` bytes whatever the buffer size. */
  method ReadCappedLine(src: Text, maxBytes: nat, bufSize: nat) returns (line: Text, rest: Text, eof: bool)
    requires bufSize > 0
    ensures var e := LineEnd(src, 0);
            && rest == src[e..]
            && eof == (Clip(maxBytes, src[..e]) == [] && (e == 0 || src[e - 1] != NL))
            && line == TrimNewline(Clip(maxBytes, src[..e]))
  {
    var buf: Text, pos := [], 0;
    var done := false;
    while !done
      invariant 0 <= pos <= |src|
      invariant !done ==> LineEnd(src, pos) == LineEnd(src, 0) && (pos > 0 ==> src[pos - 1] != NL)
      invariant done ==> pos == LineEnd(src, 0)
      invariant buf == Clip(maxBytes, src[..pos])
      decreases !done, |src| - pos
    {
      var end := ReadSlice(src, pos, bufSize);
      ClipGrows(maxBytes, src, pos, end);
      var room := maxBytes - |buf|;
      if room > 0 {
        buf := buf + Clip(room, src[pos..end]);
      }
      done := end == |src| || (end > pos && src[end - 1] == NL);
      pos := end;
    }
    rest := src[pos..];
    eof := |buf| == 0 && (pos == 0 || src[pos - 1] != NL);
    line := TrimNewline(buf);
  }
}
