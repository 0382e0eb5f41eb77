/** The incremental tokenizer of utils/stream_tokenizer.go. */
module Tokenizer {

  newtype byte = x: int | 0 <= x < 256

  /** What a tokenizer has reported, and what it still carries. */
  datatype Parts = Parts(lines: seq<seq<byte>>, rest: seq<byte>)

  datatype Result = Reported(lines: seq<seq<byte>>) | TooLarge

  /** The lines that end in `data`, the first of them continuing `cur`, and what is left over. */
  function Feed(token: byte, cur: seq<byte>, data: seq<byte>): Parts {
    if data == [] then Parts([], cur)
    else
      var n := |data| - 1;
      var before := Feed(token, cur, data[..n]);
      if data[n] == token then Parts(before.lines + [before.rest], [])
      else Parts(before.lines, before.rest + [data[n]])
  }

  /** A chunk read byte by byte: what it amounts to up to its last token, and the segment since. */
  datatype Cleaning = Cleaning(out: seq<byte>, seg: seq<byte>)

  /** A segment with the token that ends it: a segment of one byte is dropped
      (utils/stream_tokenizer.go:24). */
  function Ended(token: byte, seg: seq<byte>): seq<byte> {
    (if |seg| == 1 then [] else seg) + [token]
  }

  function CleanUpTo(token: byte, data: seq<byte>): Cleaning {
    if data == [] then Cleaning([], [])
    else
      var n := |data| - 1;
      var before := CleanUpTo(token, data[..n]);
      if data[n] == token then Cleaning(before.out + Ended(token, before.seg), [])
      else Cleaning(before.out, before.seg + [data[n]])
  }

  /** What one call makes of its argument: each one-byte segment that a token of the call ends is
      removed; the bytes after the last token stay, however few they are. */
  function Clean(token: byte, data: seq<byte>): seq<byte> {
    var c := CleanUpTo(token, data);
    c.out + c.seg
  }

  predicate Fits(max: nat, s: Parts) {
    max == 0 || (AllWithin(max, s.lines) && |s.rest| <= max)
  }

  predicate AllWithin(max: nat, lines: seq<seq<byte>>) {
    forall i :: 0 <= i < |lines| ==> |lines[i]| <= max
  }

  /** Add after some bytes: reported lines, carry, and the current segment, not yet appended. */
  datatype Scan = Scan(lines: seq<seq<byte>>, cur: seq<byte>, seg: seq<byte>)

  ghost function Line(s: Scan): seq<byte> {
    if |s.seg| > 1 then s.cur + s.seg else s.cur
  }

  ghost function Scanned(token: byte, c: seq<byte>, data: seq<byte>): Scan {
    if data == [] then Scan([], c, [])
    else
      var n := |data| - 1;
      var s := Scanned(token, c, data[..n]);
      if data[n] == token then Scan(s.lines + [Line(s)], [], []) else s.(seg := s.seg + [data[n]])
  }

  /** Nothing is reported that a longer argument would not report. */
  lemma {:induction false} ScannedGrows(token: byte, c: seq<byte>, data: seq<byte>, m: nat)
    requires m <= |data|
    ensures Scanned(token, c, data[..m]).lines <= Scanned(token, c, data).lines
    decreases |data|
  {
    if m == |data| {
      assert data[..m] == data;
    } else {
      assert data[..|data| - 1][..m] == data[..m];
      ScannedGrows(token, c, data[..|data| - 1], m);
    }
  }

  /** What Add computes is the split of its cleaned argument. */
  lemma {:induction false} ScannedIsFeed(token: byte, c: seq<byte>, data: seq<byte>)
    ensures var s := Scanned(token, c, data); var k := CleanUpTo(token, data);
      && s.seg == k.seg && token !in s.seg
      && Feed(token, c, k.out) == Parts(s.lines, s.cur)
    ensures Feed(token, c, Clean(token, data)) == Flush(Scanned(token, c, data))
    decreases |data|
  {
    var s := Scanned(token, c, data);
    var k := CleanUpTo(token, data);
    if data != [] {
      var n := |data| - 1;
      ScannedIsFeed(token, c, data[..n]);
      if data[n] == token {
        FeedEnded(token, c, CleanUpTo(token, data[..n]), Scanned(token, c, data[..n]));
      }
    }
    FeedConcat(token, c, k.out, k.seg);
    FeedSegment(token, s.cur, k.seg);
  }

  lemma FeedEnded(token: byte, c: seq<byte>, k: Cleaning, s: Scan)
    requires s.seg == k.seg && token !in s.seg && Feed(token, c, k.out) == Parts(s.lines, s.cur)
    ensures Feed(token, c, k.out + Ended(token, k.seg)) == Parts(s.lines + [Line(s)], [])
  {
    var seg := if |k.seg| == 1 then [] else k.seg;
    FeedLine(token, c, k.out, seg);
    assert s.cur + [] == s.cur;
    assert |s.seg| == 0 ==> s.seg == [];
  }

  class StreamTokenizer {
    const MaxSize: nat
    const Token: byte
    var currentData: seq<byte>

    constructor (maxSize: nat, token: byte)
      ensures MaxSize == maxSize && Token == token && currentData == [] && Valid()
    {
      MaxSize, Token, currentData := maxSize, token, [];
    }

    /** The carry is within the limit. */
    ghost predicate Valid()
      reads this
    {
      MaxSize != 0 ==> |currentData| <= MaxSize
    }

    /** Add reports the lines of what it carried and what is left of its argument, unless one of them,
        or the new carry, is over the limit; then nothing is reported or carried. */
    method Add(data: seq<byte>) returns (r: Result)
      requires Valid()
      modifies this
      ensures Valid()
      ensures var s := Feed(Token, old(currentData), Clean(Token, data));
        if Fits(MaxSize, s) then r == Reported(s.lines) && currentData == s.rest
        else r == TooLarge && currentData == []
      ensures r.Reported? && MaxSize > 0 ==> |currentData| <= MaxSize && forall i :: 0 <= i < |r.lines| ==> |r.lines[i]| <= MaxSize
      ensures r.TooLarge? ==>
        var s := Feed(Token, old(currentData), Clean(Token, data));
        MaxSize > 0 && (|s.rest| > MaxSize || exists i :: 0 <= i < |s.lines| && |s.lines[i]| > MaxSize)
    {
      ScannedIsFeed(Token, currentData, data);
      r := AddBytes(data);
    }

    /** The byte loop. */
    method AddBytes(data: seq<byte>) returns (r: Result)
      requires Valid()
      modifies this
      ensures Valid()
      ensures var s := Flush(Scanned(Token, old(currentData), data));
        if Fits(MaxSize, s) then r == Reported(s.lines) && currentData == s.rest
        else r == TooLarge && currentData == []
    {
      var dataStart := 0;
      var toReport := [];
      ghost var c := currentData;
      for i := 0 to |data|
        invariant dataStart <= i && Fits(MaxSize, Parts(toReport, currentData))
        invariant Scanning(Token, c, data, i, dataStart, toReport, currentData)
      {
        var b := data[i];
        ScanNext(Token, c, data, i, dataStart, toReport, currentData);
        if b == Token {
          ghost var before := currentData;
          var tooLarge := Append(data[dataStart..i], i - 1 > dataStart);
          if tooLarge {
            LineOver(Token, c, data, i, MaxSize, Scan(toReport, before, data[dataStart..i]));
            return TooLarge;
          }
          FitsLine(MaxSize, toReport, before, currentData);
          dataStart := i + 1;
          toReport := toReport + [currentData];
          currentData := [];
          continue;
        }
        if |data| - 1 == i {
          var tooLarge := Append(data[dataStart..i + 1], true);
          if tooLarge {
            return TooLarge;
          }
        }
      }
      assert data[..|data|] == data;
      return Reported(toReport);
    }

    /** Carries the segment if it is to be kept; over the limit nothing is carried any more. */
    method Append(segment: seq<byte>, keep: bool) returns (tooLarge: bool)
      requires Valid()
      modifies this`currentData
      ensures Valid()
      ensures var line := if keep then old(currentData) + segment else old(currentData);
        && tooLarge == (keep && MaxSize != 0 && |line| > MaxSize)
        && currentData == if tooLarge then [] else line
    {
      if keep {
        currentData := currentData + segment;
        if MaxSize != 0 && |currentData| > MaxSize {
          currentData := [];
          return true;
        }
      }
      return false;
    }
  }

  /** Before byte i: reported lines, carry and current segment are those of a scan so far; after the last
      byte the segment has been carried. */
  ghost predicate Scanning(token: byte, c: seq<byte>, data: seq<byte>, i: nat, dataStart: nat, lines: seq<seq<byte>>, cur: seq<byte>)
    requires dataStart <= i <= |data|
  {
    && (dataStart == i || i < |data| ==> Scanned(token, c, data[..i]) == Scan(lines, cur, data[dataStart..i]))
    && (i == |data| ==> Flush(Scanned(token, c, data[..i])) == Parts(lines, cur))
  }

  /** One byte: a token ends the line, the last byte ends the argument. */
  lemma ScanNext(token: byte, c: seq<byte>, data: seq<byte>, i: nat, dataStart: nat, lines: seq<seq<byte>>, cur: seq<byte>)
    requires dataStart <= i < |data| && Scanning(token, c, data, i, dataStart, lines, cur)
    ensures Scanned(token, c, data[..i]) == Scan(lines, cur, data[dataStart..i])
    ensures data[i] == token ==> Scanning(token, c, data, i + 1, i + 1, lines + [Line(Scan(lines, cur, data[dataStart..i]))], [])
    ensures data[i] != token ==>
      Scanning(token, c, data, i + 1, dataStart, lines, if i == |data| - 1 then cur + data[dataStart..i + 1] else cur)
    ensures i == |data| - 1 && data[i] != token ==> Flush(Scanned(token, c, data)) == Parts(lines, cur + data[dataStart..i + 1])
  {
    ScannedNext(token, c, data, i, dataStart);
    assert i == |data| - 1 ==> data[..i + 1] == data;
  }

  /** The end of a call: the current segment is carried. */
  ghost function Flush(s: Scan): Parts {
    Parts(s.lines, s.cur + s.seg)
  }

  lemma ScannedNext(token: byte, c: seq<byte>, data: seq<byte>, i: nat, dataStart: nat)
    requires dataStart <= i < |data|
    ensures var s := Scanned(token, c, data[..i]);
      Scanned(token, c, data[..i + 1])
      == if data[i] == token then Scan(s.lines + [Line(s)], [], []) else s.(seg := s.seg + [data[i]])
    ensures data[dataStart..i] + [data[i]] == data[dataStart..i + 1] && data[i + 1..i + 1] == []
  {
    assert data[..i + 1][..i] == data[..i];
  }

  /** A line over the limit stays over it, whatever follows. */
  lemma LineOver(token: byte, c: seq<byte>, data: seq<byte>, i: nat, max: nat, s: Scan)
    requires i < |data| && data[i] == token && Scanned(token, c, data[..i]) == s && max != 0 && |Line(s)| > max
    ensures !Fits(max, Flush(Scanned(token, c, data)))
  {
    ScannedNext(token, c, data, i, i);
    ScannedGrows(token, c, data, i + 1);
    var lines := s.lines + [Line(s)];
    assert lines[|s.lines|] == Line(s);
    assert Line(s) in Scanned(token, c, data).lines;
  }

  lemma FitsLine(max: nat, lines: seq<seq<byte>>, cur: seq<byte>, line: seq<byte>)
    requires Fits(max, Parts(lines, cur)) && (max == 0 || |line| <= max)
    ensures Fits(max, Parts(lines + [line], []))
  {
  }

  lemma {:induction false} FeedConcat(token: byte, cur: seq<byte>, a: seq<byte>, b: seq<byte>)
    ensures var s := Feed(token, cur, a); var t := Feed(token, s.rest, b);
      Feed(token, cur, a + b) == Parts(s.lines + t.lines, t.rest)
    decreases |b|
  {
    if b == [] {
      assert a + b == a;
    } else {
      assert (a + b)[..|a + b| - 1] == a + b[..|b| - 1];
      FeedConcat(token, cur, a, b[..|b| - 1]);
    }
  }

  lemma {:induction false} FeedSegment(token: byte, cur: seq<byte>, seg: seq<byte>)
    requires token !in seg
    ensures Feed(token, cur, seg) == Parts([], cur + seg)
    decreases |seg|
  {
    if seg != [] {
      FeedSegment(token, cur, seg[..|seg| - 1]);
      assert cur + seg[..|seg| - 1] + [seg[|seg| - 1]] == cur + seg;
    } else {
      assert cur + seg == cur;
    }
  }

  lemma FeedLine(token: byte, c: seq<byte>, a: seq<byte>, seg: seq<byte>)
    requires token !in seg
    ensures var s := Feed(token, c, a); Feed(token, c, a + (seg + [token])) == Parts(s.lines + [s.rest + seg], [])
  {
    var s := Feed(token, c, a);
    FeedConcat(token, c, a, seg + [token]);
    FeedSegment(token, s.rest, seg);
    assert (seg + [token])[..|seg|] == seg;
  }

  // ----- Whole streams ---------------------------------------------------------------------------

  /** What a tokenizer without a limit reports over a sequence of calls, and carries in the end. */
  function Run(token: byte, cur: seq<byte>, chunks: seq<seq<byte>>): Parts {
    if chunks == [] then Parts([], cur)
    else
      var before := Run(token, cur, chunks[..|chunks| - 1]);
      var s := Feed(token, before.rest, Clean(token, chunks[|chunks| - 1]));
      Parts(before.lines + s.lines, s.rest)
  }

  /** A tokenizer is called once per chunk; this is the loop of any of its callers. */
  method AddAll(t: StreamTokenizer, chunks: seq<seq<byte>>) returns (lines: seq<seq<byte>>)
    requires t.Valid() && t.MaxSize == 0
    modifies t
    ensures t.Valid() && Parts(lines, t.currentData) == Run(t.Token, old(t.currentData), chunks)
  {
    lines := [];
    for i := 0 to |chunks|
      invariant t.Valid() && Parts(lines, t.currentData) == Run(t.Token, old(t.currentData), chunks[..i])
    {
      assert chunks[..i + 1][..i] == chunks[..i];
      var r := t.Add(chunks[i]);
      lines := lines + r.lines;
    }
    assert chunks[..|chunks|] == chunks;
  }

  function Concat(chunks: seq<seq<byte>>): seq<byte> {
    if chunks == [] then [] else Concat(chunks[..|chunks| - 1]) + chunks[|chunks| - 1]
  }

  function CleanAll(token: byte, chunks: seq<seq<byte>>): seq<seq<byte>> {
    if chunks == [] then [] else CleanAll(token, chunks[..|chunks| - 1]) + [Clean(token, chunks[|chunks| - 1])]
  }

  /** THE TOKENIZER, WITHOUT A LIMIT.  However a stream is cut into calls, lines and carry are the
      split of the stream from which, per call, every one-byte segment that a token of that call ends
      was removed. */
  lemma {:induction false} RunIsCleanedSplit(token: byte, cur: seq<byte>, chunks: seq<seq<byte>>)
    ensures Run(token, cur, chunks) == Feed(token, cur, Concat(CleanAll(token, chunks)))
    decreases |chunks|
  {
    if chunks != [] {
      var front, last := chunks[..|chunks| - 1], chunks[|chunks| - 1];
      RunIsCleanedSplit(token, cur, front);
      assert CleanAll(token, chunks)[..|CleanAll(token, front)|] == CleanAll(token, front);
      FeedConcat(token, cur, Concat(CleanAll(token, front)), Clean(token, last));
    }
  }

  /** Putting lines and rest back together. */
  function Unsplit(token: byte, lines: seq<seq<byte>>): seq<byte> {
    if lines == [] then [] else Unsplit(token, lines[..|lines| - 1]) + lines[|lines| - 1] + [token]
  }

  /** A split loses nothing, and its lines and rest hold no token. */
  lemma {:induction false} FeedUnsplit(token: byte, cur: seq<byte>, data: seq<byte>)
    ensures var s := Feed(token, cur, data); Unsplit(token, s.lines) + s.rest == cur + data
    ensures token !in cur ==> var s := Feed(token, cur, data); token !in s.rest && forall l :: l in s.lines ==> token !in l
    decreases |data|
  {
    if data == [] {
      assert cur + data == cur;
    } else {
      var n := |data| - 1;
      FeedUnsplit(token, cur, data[..n]);
      var before := Feed(token, cur, data[..n]);
      assert cur + data == cur + data[..n] + [data[n]];
      assert (before.lines + [before.rest])[..|before.lines|] == before.lines;
    }
  }

  /** The token at index i ends a one-byte segment of the chunk. */
  ghost predicate LoneAt(token: byte, chunk: seq<byte>, i: int)
    requires 1 <= i < |chunk|
  {
    chunk[i] == token && chunk[i - 1] != token && (i == 1 || chunk[i - 2] == token)
  }

  ghost predicate HasLoneByte(token: byte, chunk: seq<byte>) {
    exists i :: 1 <= i < |chunk| && LoneAt(token, chunk, i)
  }

  /** The current segment is what follows the last token. */
  lemma {:induction false} SegmentIs(token: byte, chunk: seq<byte>)
    ensures var seg := CleanUpTo(token, chunk).seg; var k := |chunk| - |seg|;
      && 0 <= k && chunk[k..] == seg && token !in seg && (k > 0 ==> chunk[k - 1] == token)
    decreases |chunk|
  {
    if chunk != [] {
      SegmentIs(token, chunk[..|chunk| - 1]);
    }
  }

  lemma {:induction false} CleanIffNoLoneByte(token: byte, chunk: seq<byte>)
    ensures |Clean(token, chunk)| <= |chunk|
    ensures HasLoneByte(token, chunk) <==> |Clean(token, chunk)| < |chunk|
    ensures !HasLoneByte(token, chunk) ==> Clean(token, chunk) == chunk
    decreases |chunk|
  {
    if chunk == [] {
      assert Clean(token, chunk) == [];
    } else {
      var n := |chunk| - 1;
      CleanIffNoLoneByte(token, chunk[..n]);
      LoneMore(token, chunk);
      CleanMore(token, chunk);
      assert chunk == chunk[..n] + [chunk[n]];
      assert Clean(token, chunk[..n]) == chunk[..n] ==> Clean(token, chunk[..n]) + [chunk[n]] == chunk;
    }
  }

  /** The last byte drops out if it ends a one-byte segment, and takes that segment with it. */
  lemma CleanMore(token: byte, chunk: seq<byte>)
    requires chunk != []
    ensures var n := |chunk| - 1; var before := Clean(token, chunk[..n]);
      if n >= 1 && LoneAt(token, chunk, n) then |Clean(token, chunk)| == |before|
      else Clean(token, chunk) == before + [chunk[n]]
  {
    var n := |chunk| - 1;
    var k := CleanUpTo(token, chunk[..n]);
    SegmentIs(token, chunk[..n]);
    assert n >= 1 && LoneAt(token, chunk, n) <==> chunk[n] == token && |k.seg| == 1;
    assert k.out + (k.seg + [chunk[n]]) == (k.out + k.seg) + [chunk[n]];
  }

  lemma LoneMore(token: byte, chunk: seq<byte>)
    requires chunk != []
    ensures var n := |chunk| - 1;
      HasLoneByte(token, chunk) <==> HasLoneByte(token, chunk[..n]) || (n >= 1 && LoneAt(token, chunk, n))
  {
    var n := |chunk| - 1;
    if HasLoneByte(token, chunk[..n]) {
      var i :| 1 <= i < n && LoneAt(token, chunk[..n], i);
      assert LoneAt(token, chunk, i);
    }
    if HasLoneByte(token, chunk) {
      var i :| 1 <= i < |chunk| && LoneAt(token, chunk, i);
      assert i < n ==> LoneAt(token, chunk[..n], i);
    }
  }

  lemma {:induction false} ConcatLengths(token: byte, chunks: seq<seq<byte>>)
    ensures |Concat(CleanAll(token, chunks))| <= |Concat(chunks)|
    ensures (forall c :: c in chunks ==> !HasLoneByte(token, c)) ==> Concat(CleanAll(token, chunks)) == Concat(chunks)
    ensures |Concat(CleanAll(token, chunks))| == |Concat(chunks)| ==> forall c :: c in chunks ==> !HasLoneByte(token, c)
    decreases |chunks|
  {
    if chunks != [] {
      var front, last := chunks[..|chunks| - 1], chunks[|chunks| - 1];
      ConcatLengths(token, front);
      CleanIffNoLoneByte(token, last);
      assert CleanAll(token, chunks)[..|CleanAll(token, front)|] == CleanAll(token, front);
      assert forall c :: c in chunks <==> c in front || c == last;
    }
  }

  /** LOSSLESS, EXACTLY WHEN.  The result over a sequence of calls is the split of the whole stream, and
      so does not depend on how the stream was cut, if and only if no call ends a one-byte segment. */
  lemma LosslessIff(token: byte, cur: seq<byte>, chunks: seq<seq<byte>>)
    ensures Run(token, cur, chunks) == Feed(token, cur, Concat(chunks))
       <==> forall c :: c in chunks ==> !HasLoneByte(token, c)
  {
    RunIsCleanedSplit(token, cur, chunks);
    ConcatLengths(token, chunks);
    FeedUnsplit(token, cur, Concat(chunks));
    FeedUnsplit(token, cur, Concat(CleanAll(token, chunks)));
  }

  /** The cutting matters: the same two bytes give an empty line in one call and a full one in two. */
  lemma CuttingMatters(token: byte, b: byte)
    requires b != token
    ensures Run(token, [], [[b, token]]) == Parts([[]], [])
    ensures Run(token, [], [[b], [token]]) == Parts([[b]], [])
  {
    TwoCalls(token, b);
    OneCall(token, b);
  }

  lemma OneCall(token: byte, b: byte)
    requires b != token
    ensures Run(token, [], [[b, token]]) == Parts([[]], [])
  {
    assert [b, token][..1] == [b] && [b][..0] == [] && [token][..0] == [];
    assert CleanUpTo(token, [b]) == Cleaning([], [b]);
    assert Clean(token, [b, token]) == [token];
    assert Feed(token, [], [token]) == Parts([[]], []);
    assert [[b, token]][..0] == [];
  }

  lemma TwoCalls(token: byte, b: byte)
    requires b != token
    ensures Run(token, [], [[b], [token]]) == Parts([[b]], [])
  {
    var chunks := [[b], [token]];
    assert !HasLoneByte(token, [b]) && !HasLoneByte(token, [token]);
    LosslessIff(token, [], chunks);
    assert chunks[..1] == [[b]] && [[b]][..0] == [];
    assert Concat([[b]]) == [] + [b];
    assert Concat(chunks) == [] + ([b] + [token]);
    FeedLine(token, [], [], [b]);
  }
}
