/** The chunked transfer coding of section 3.6.1 of RFC 2616, decoded without a buffer of its
    own, and the proof that the parser's in-place decoder computes it. */
module RtspChunked {
  import opened Bytes
  import opened RtspModel
  import opened RtspRun

  // ---------- the coding, on bytes that do not change ----------

  datatype Found =
    | At(next: nat)  // the index behind what was looked for
    | Open           // the bytes end first
    | Broken         // something else stands there

  datatype Body =
    | Complete(data: seq<byte>, next: nat)
    | Partial
    | Malformed

  /** Behind the end of the line that p lies in; a carriage return must not stand alone. */
  function EndOfLine(s: seq<byte>, p: nat): (f: Found)
    ensures f.At? ==> p < f.next <= |s|
    decreases |s| - p
  {
    if p >= |s| then Open
    else if s[p] == LF then At(p + 1)
    else if s[p] == CR then
      if p + 1 >= |s| then Open else if s[p + 1] == LF then At(p + 2) else Broken
    else EndOfLine(s, p + 1)
  }

  function HexEnd(s: seq<byte>, p: nat): (e: nat)
    requires p <= |s|
    ensures p <= e <= |s|
    decreases |s| - p
  {
    if p == |s| || !IsHex(s[p]) then p else HexEnd(s, p + 1)
  }

  /** The hexadecimal number that the bytes from a up to b spell. */
  function HexNumber(s: seq<byte>, a: nat, b: nat): (n: nat)
    requires b <= |s|
    decreases b
  {
    if b <= a || !IsHex(s[b - 1]) then 0
    else 16 * HexNumber(s, a, b - 1) + HexValue(s[b - 1])
  }

  /** chunk-size [ chunk-extension ] CRLF */
  function SizeLine(s: seq<byte>, p: nat): (f: Found)
    requires p <= |s|
    ensures f.At? ==> p < f.next <= |s|
  {
    var e := HexEnd(s, p);
    if e == p && e < |s| then Broken else SizeRest(s, e)
  }

  /** What may follow the digits of a chunk size. */
  function SizeRest(s: seq<byte>, e: nat): (f: Found)
    ensures f.At? ==> e < f.next <= |s|
  {
    if e >= |s| then Open
    else if IsBlank(s[e]) || s[e] == SEMICOLON then EndOfLine(s, e + 1)
    else if s[e] == CR || s[e] == LF then EndOfLine(s, e)
    else Broken
  }

  /** trailer CRLF: lines up to and with an empty one. */
  function Trailer(s: seq<byte>, p: nat): (f: Found)
    ensures f.At? ==> p < f.next <= |s|
    decreases |s| - p
  {
    if p >= |s| then Open
    else if s[p] == CR || s[p] == LF then EndOfLine(s, p)
    else
      match EndOfLine(s, p + 1)
      case At(q) => Trailer(s, q)
      case f => f
  }

  /** Chunked-Body = *chunk last-chunk trailer CRLF, starting at p. */
  function Decode(s: seq<byte>, p: nat): (b: Body)
    requires p <= |s|
    ensures b.Complete? ==> p + |b.data| < b.next <= |s|
    decreases |s| - p
  {
    match SizeLine(s, p)
    case Open => Partial
    case Broken => Malformed
    case At(q) =>
      var n := HexNumber(s, p, HexEnd(s, p));
      if n == 0 then
        match Trailer(s, q)
        case Open => Partial
        case Broken => Malformed
        case At(next) => Complete([], next)
      else if q + n + 2 > |s| then Partial
      else if s[q + n] != CR || s[q + n + 1] != LF then Malformed
      else
        match Decode(s, q + n + 2)
        case Complete(data, next) => Complete(s[q..q + n] + data, next)
        case b => b
  }

  // ---------- the coding depends only on the bytes from p on ----------

  ghost predicate SameFrom(s: seq<byte>, t: seq<byte>, p: nat) {
    |s| == |t| && forall i :: p <= i < |s| ==> s[i] == t[i]
  }

  lemma {:induction false} EndOfLineSame(s: seq<byte>, t: seq<byte>, p: nat)
    requires SameFrom(s, t, p)
    ensures EndOfLine(s, p) == EndOfLine(t, p)
    decreases |s| - p
  {
    if p < |s| {
      EndOfLineSame(s, t, p + 1);
    }
  }

  lemma {:induction false} HexSame(s: seq<byte>, t: seq<byte>, p: nat, e: nat)
    requires p <= e <= |s| && SameFrom(s, t, p)
    ensures HexEnd(s, e) == HexEnd(t, e)
    decreases |s| - e
  {
    if e < |s| {
      HexSame(s, t, p, e + 1);
    }
  }

  lemma {:induction false} HexNumberSame(s: seq<byte>, t: seq<byte>, p: nat, e: nat)
    requires p <= e <= |s| && SameFrom(s, t, p)
    ensures HexNumber(s, p, e) == HexNumber(t, p, e)
    decreases e
  {
    if p < e {
      HexNumberSame(s, t, p, e - 1);
    }
  }

  lemma {:induction false} TrailerSame(s: seq<byte>, t: seq<byte>, p: nat)
    requires SameFrom(s, t, p)
    ensures Trailer(s, p) == Trailer(t, p)
    decreases |s| - p
  {
    EndOfLineSame(s, t, p);
    EndOfLineSame(s, t, p + 1);
    if p < |s| && EndOfLine(s, p + 1).At? {
      TrailerSame(s, t, EndOfLine(s, p + 1).next);
    }
  }

  lemma SizeLineSame(s: seq<byte>, t: seq<byte>, p: nat)
    requires p <= |s| && SameFrom(s, t, p)
    ensures SizeLine(s, p) == SizeLine(t, p)
  {
    HexSame(s, t, p, p);
    var e := HexEnd(s, p);
    EndOfLineSame(s, t, e);
    EndOfLineSame(s, t, e + 1);
  }

  lemma {:induction false} DecodeSame(s: seq<byte>, t: seq<byte>, p: nat)
    requires p <= |s| && SameFrom(s, t, p)
    ensures Decode(s, p) == Decode(t, p)
    decreases |s| - p
  {
    hide *;
    SizeLineSame(s, t, p);
    HexSame(s, t, p, p);
    HexNumberSame(s, t, p, HexEnd(s, p));
    SameLength(s, t, p);
    DecodeIs(s, p);
    DecodeIs(t, p);
    if SizeLine(s, p).At? {
      var q, n := SizeLine(s, p).next, HexNumber(s, p, HexEnd(s, p));
      SameLater(s, t, p, q, q);
      TrailerSame(s, t, q);
      if q + n + 2 <= |s| {
        SameLater(s, t, p, q, q + n);
        SameLater(s, t, p, q + n, q + n + 2);
        DecodeSame(s, t, q + n + 2);
      }
    }
  }

  /** The coding, one chunk at a time. */
  lemma DecodeIs(s: seq<byte>, p: nat)
    requires p <= |s|
    ensures SizeLine(s, p).Open? ==> Decode(s, p) == Partial
    ensures SizeLine(s, p).Broken? ==> Decode(s, p) == Malformed
    ensures SizeLine(s, p).At? ==>
      var q, n := SizeLine(s, p).next, HexNumber(s, p, HexEnd(s, p));
      (n == 0 ==>
        (Trailer(s, q).Open? ==> Decode(s, p) == Partial) && (Trailer(s, q).Broken? ==> Decode(s, p) == Malformed) &&
        (Trailer(s, q).At? ==> Decode(s, p) == Complete([], Trailer(s, q).next))) &&
      (n > 0 && q + n + 2 > |s| ==> Decode(s, p) == Partial) &&
      (n > 0 && q + n + 2 <= |s| ==>
        if s[q + n] != CR || s[q + n + 1] != LF then Decode(s, p) == Malformed
        else
          var d := Decode(s, q + n + 2);
          Decode(s, p) == if d.Complete? then Complete(s[q..q + n] + d.data, d.next) else d)
  {
    hide SizeLine, HexEnd, HexNumber, Trailer;
  }

  lemma SameLength(s: seq<byte>, t: seq<byte>, p: nat)
    requires SameFrom(s, t, p)
    ensures |s| == |t|
  {
  }

  lemma SameLater(s: seq<byte>, t: seq<byte>, p: nat, a: nat, b: nat)
    requires SameFrom(s, t, p) && p <= a <= b <= |s|
    ensures |s| == |t| && SameFrom(s, t, b) && s[a..b] == t[a..b]
    ensures forall i :: a <= i < b ==> s[i] == t[i]
  {
  }

  // ---------- the parser's decoder ----------

  /** A parser that decodes chunks, at the start of one. */
  ghost predicate AtChunk(p: Parser) {
    Valid(p) && p.stateM == SM_BODY && p.chunk.offset != 0 && p.chunk == Chunk(p.chunk.offset, 0, 0)
  }

  /** Later in the same chunk: about to read byte i in state m, the size so far being n and
      the data starting at k. */
  function Reading(p: Parser, i: int, m: int, n: int, k: int): Parser {
    p.(chunk := Chunk(i, n, k), stateM := m)
  }

  lemma ReadingValid(p: Parser, i: int, m: int, n: nat, k: int)
    requires AtChunk(p) && p.chunk.offset < i <= |p.raw|
    requires CHUNK_SIZE <= m <= CHUNK_END_CR && (m == CHUNK_DATA ==> n > 0 && k == i)
    ensures Valid(Reading(p, i, m, n, k)) && IsChunked(Reading(p, i, m, n, k))
  {
    assert IsChunked(Reading(p, i, m, n, k)) == IsChunked(p);
  }

  /** One step of the decoder, and the run that goes on from there. */
  lemma ReadingRun(p: Parser, i: int, m: int, n: nat, k: int)
    requires AtChunk(p) && p.chunk.offset < i <= |p.raw|
    requires CHUNK_SIZE <= m <= CHUNK_END_CR && m != CHUNK_DATA
    ensures var r := Reading(p, i, m, n, k);
      && Valid(r)
      && (i == |p.raw| ==> Run(r).NeedMore?)
      && (i < |p.raw| ==>
        match ChunkStep(r)
        case Go(q) => Valid(q) && Run(r) == Run(q)
        case Bad => Run(r).Reject?
        case _ => true)
  {
    hide Run, ChunkStep, EncodingSettled, ChunkOk, HeadersOk;
    ReadingValid(p, i, m, n, k);
    SameEncoding(p, i, m, n, k);
    RunStep(Reading(p, i, m, n, k));
  }

  /** The digits of a chunk size. */
  lemma {:induction false} HexRun(p: Parser, i: nat)
    requires AtChunk(p) && p.chunk.offset < i <= HexEnd(p.raw, p.chunk.offset)
    requires HexEnd(p.raw, i) == HexEnd(p.raw, p.chunk.offset)
    ensures var c := p.chunk.offset; var e := HexEnd(p.raw, c);
      && Valid(Reading(p, i, CHUNK_SIZE, HexNumber(p.raw, c, i), 0))
      && Valid(Reading(p, e, CHUNK_SIZE, HexNumber(p.raw, c, e), 0))
      && Run(Reading(p, i, CHUNK_SIZE, HexNumber(p.raw, c, i), 0)) ==
        Run(Reading(p, e, CHUNK_SIZE, HexNumber(p.raw, c, e), 0))
    decreases |p.raw| - i
  {
    hide Run, Valid, HexNumber, HexEnd, HexValue;
    SameEncoding(p, i, 0, 0, 0);
    var c := p.chunk.offset;
    ReadingRun(p, i, CHUNK_SIZE, HexNumber(p.raw, c, i), 0);
    if i < HexEnd(p.raw, c) {
      HexNext(p.raw, c, i);
      HexRun(p, i + 1);
    }
  }

  lemma HexNext(s: seq<byte>, c: nat, i: nat)
    requires c <= i <= |s| && i < HexEnd(s, c) && HexEnd(s, i) == HexEnd(s, c)
    ensures IsHex(s[i]) && HexEnd(s, i + 1) == HexEnd(s, c)
    ensures HexNumber(s, c, i + 1) == HexNumber(s, c, i) * 16 + HexValue(s[i])
  {
  }

  /** Behind a size line: the data of a chunk, or the trailer after the last one. */
  function AfterLine(p: Parser, q: int, n: int): Parser {
    Reading(p, q, if n == 0 then CHUNK_TRAILER_START else CHUNK_DATA, n, q)
  }

  /** What a run from r comes to when the size line ends as f says. */
  ghost predicate LineOutcome(p: Parser, r: Parser, f: Found, n: nat)
    requires Valid(r)
  {
    match f
    case Open => Run(r).NeedMore?
    case Broken => Run(r).Reject?
    case At(q) => Valid(AfterLine(p, q, n)) && Run(r) == Run(AfterLine(p, q, n))
  }

  /** A line feed, or a carriage return and what follows it, at the end of a size line. */
  lemma LineReturn(p: Parser, i: nat, m: int, n: nat)
    requires AtChunk(p) && p.chunk.offset < i < |p.raw| && (p.raw[i] == CR || p.raw[i] == LF)
    requires m == CHUNK_EXTENSION || m == CHUNK_SIZE
    requires Valid(Reading(p, i, m, n, 0))
    ensures LineOutcome(p, Reading(p, i, m, n, 0), EndOfLine(p.raw, i), n)
  {
    hide Run, Valid;
    ReadingRun(p, i, m, n, 0);
    if p.raw[i] == CR {
      ReadingRun(p, i + 1, CHUNK_EXTENSION_CR, n, 0);
    }
  }

  lemma SameEncoding(p: Parser, i: int, m: int, n: int, k: int)
    requires AtChunk(p)
    ensures IsChunked(Reading(p, i, m, n, k)) && p.stateM == SM_BODY && p.chunk == Chunk(p.chunk.offset, 0, 0) &&
      p.chunk.offset > 0
  {
    assert IsChunked(Reading(p, i, m, n, k)) == IsChunked(p);
  }

  /** A chunk extension, from byte i on. */
  lemma {:induction false} ExtensionRun(p: Parser, i: nat, n: nat)
    requires AtChunk(p) && p.chunk.offset < i <= |p.raw|
    ensures Valid(Reading(p, i, CHUNK_EXTENSION, n, 0))
    ensures LineOutcome(p, Reading(p, i, CHUNK_EXTENSION, n, 0), EndOfLine(p.raw, i), n)
    decreases |p.raw| - i
  {
    hide Run, Valid;
    ReadingRun(p, i, CHUNK_EXTENSION, n, 0);
    if i < |p.raw| {
      if p.raw[i] == CR || p.raw[i] == LF {
        LineReturn(p, i, CHUNK_EXTENSION, n);
      } else {
        ExtensionRun(p, i + 1, n);
      }
    }
  }

  lemma SizeRestRun(p: Parser, e: nat, n: nat)
    requires AtChunk(p) && p.chunk.offset < e <= |p.raw| && (e < |p.raw| ==> !IsHex(p.raw[e]))
    requires Valid(Reading(p, e, CHUNK_SIZE, n, 0))
    ensures LineOutcome(p, Reading(p, e, CHUNK_SIZE, n, 0), SizeRest(p.raw, e), n)
  {
    hide Run, Valid, EndOfLine;
    ReadingRun(p, e, CHUNK_SIZE, n, 0);
    if e < |p.raw| {
      if IsBlank(p.raw[e]) || p.raw[e] == SEMICOLON {
        ExtensionRun(p, e + 1, n);
      } else if p.raw[e] == CR || p.raw[e] == LF {
        LineReturn(p, e, CHUNK_SIZE, n);
      }
    }
  }

  /** The digits of a size line, from the first on. */
  lemma SizeRun(p: Parser)
    requires AtChunk(p) && p.chunk.offset < HexEnd(p.raw, p.chunk.offset)
    ensures var c := p.chunk.offset; var e := HexEnd(p.raw, c);
      && Valid(Reading(p, e, CHUNK_SIZE, HexNumber(p.raw, c, e), 0))
      && Run(p) == Run(Reading(p, e, CHUNK_SIZE, HexNumber(p.raw, c, e), 0))
  {
    hide Run, Valid, HexValue, IsHex;
    StartRun(p);
    var c := p.chunk.offset;
    FirstDigit(p.raw, c);
    hide HexNumber, HexEnd;
    HexRun(p, c + 1);
  }

  lemma FirstDigit(s: seq<byte>, c: nat)
    requires c < |s| && c < HexEnd(s, c)
    ensures IsHex(s[c]) && HexNumber(s, c, c + 1) == HexValue(s[c]) && HexEnd(s, c + 1) == HexEnd(s, c)
  {
    assert HexNumber(s, c, c) == 0;
  }

  /** The first byte of a size line. */
  lemma StartRun(p: Parser)
    requires AtChunk(p)
    ensures 0 < p.chunk.offset <= |p.raw|
    ensures var c := p.chunk.offset;
      && (c == |p.raw| ==> Run(p).NeedMore?)
      && (c < |p.raw| && !IsHex(p.raw[c]) ==> Run(p).Reject?)
      && (c < |p.raw| && IsHex(p.raw[c]) ==>
        Valid(Reading(p, c + 1, CHUNK_SIZE, HexValue(p.raw[c]), 0)) &&
        Run(p) == Run(Reading(p, c + 1, CHUNK_SIZE, HexValue(p.raw[c]), 0)))
  {
    hide Run, EncodingSettled, HeadersOk;
    RunStep(p);
  }

  lemma {:induction false} HexEndStops(s: seq<byte>, p: nat)
    requires p <= |s|
    ensures HexEnd(s, p) < |s| ==> !IsHex(s[HexEnd(s, p)])
    decreases |s| - p
  {
    if p < |s| && IsHex(s[p]) {
      HexEndStops(s, p + 1);
    }
  }

  /** A chunk-size line as a whole. */
  lemma SizeLineRun(p: Parser)
    requires AtChunk(p)
    ensures LineOutcome(p, p, SizeLine(p.raw, p.chunk.offset),
                        HexNumber(p.raw, p.chunk.offset, HexEnd(p.raw, p.chunk.offset)))
  {
    StartRun(p);
    var c := p.chunk.offset;
    var e := HexEnd(p.raw, c);
    hide Run, Valid, HexNumber, SizeRest;
    if c < e {
      SizeRun(p);
      HexEndStops(p.raw, c);
      SizeRestRun(p, e, HexNumber(p.raw, c, e));
    }
  }

  /** What a run inside a trailer line comes to. */
  ghost predicate TrailerLineOutcome(p: Parser, r: Parser, f: Found, k: int)
    requires Valid(r)
  {
    match f
    case Open => Run(r).NeedMore?
    case Broken => Run(r).Reject?
    case At(q) =>
      Valid(Reading(p, q, CHUNK_TRAILER_START, 0, k)) && Run(r) == Run(Reading(p, q, CHUNK_TRAILER_START, 0, k))
  }

  lemma TrailerReturn(p: Parser, i: nat, k: int)
    requires AtChunk(p) && p.chunk.offset < i < |p.raw| && p.raw[i] == CR
    requires Valid(Reading(p, i, CHUNK_TRAILER, 0, k))
    ensures TrailerLineOutcome(p, Reading(p, i, CHUNK_TRAILER, 0, k), EndOfLine(p.raw, i), k)
  {
    hide Run, Valid;
    ReadingRun(p, i, CHUNK_TRAILER, 0, k);
    ReadingRun(p, i + 1, CHUNK_TRAILER_CR, 0, k);
  }

  /** The end of a trailer line. */
  lemma {:induction false} TrailerLineRun(p: Parser, i: nat, k: int)
    requires AtChunk(p) && p.chunk.offset < i <= |p.raw|
    ensures Valid(Reading(p, i, CHUNK_TRAILER, 0, k))
    ensures TrailerLineOutcome(p, Reading(p, i, CHUNK_TRAILER, 0, k), EndOfLine(p.raw, i), k)
    decreases |p.raw| - i
  {
    hide Run, Valid;
    ReadingRun(p, i, CHUNK_TRAILER, 0, k);
    if i < |p.raw| {
      if p.raw[i] == CR {
        TrailerReturn(p, i, k);
      } else if p.raw[i] != LF {
        TrailerLineRun(p, i + 1, k);
      }
    }
  }

  lemma DoneRun(r: Parser)
    requires Valid(r) && r.stateM == SM_DONE
    ensures Run(r) == Done(r)
  {
  }

  /** What a run at the start of a trailer line comes to. */
  ghost predicate TrailerOutcome(p: Parser, r: Parser, f: Found, k: int)
    requires Valid(r)
  {
    match f
    case Open => Run(r).NeedMore?
    case Broken => Run(r).Reject?
    case At(q) => Run(r) == Done(Reading(p, q, SM_DONE, 0, k))
  }

  /** The empty line behind the trailer completes the message. */
  lemma BodyEndRun(p: Parser, i: nat, k: int)
    requires AtChunk(p) && p.chunk.offset < i < |p.raw| && (p.raw[i] == LF || p.raw[i] == CR)
    requires Valid(Reading(p, i, CHUNK_TRAILER_START, 0, k))
    ensures TrailerOutcome(p, Reading(p, i, CHUNK_TRAILER_START, 0, k), EndOfLine(p.raw, i), k)
  {
    hide Run, Valid;
    ReadingRun(p, i, CHUNK_TRAILER_START, 0, k);
    if p.raw[i] == LF {
      DoneRun(Reading(p, i + 1, SM_DONE, 0, k));
    } else {
      ReadingRun(p, i + 1, CHUNK_END_CR, 0, k);
      if i + 1 < |p.raw| && p.raw[i + 1] == LF {
        DoneRun(Reading(p, i + 2, SM_DONE, 0, k));
      }
    }
  }

  lemma {:induction false} TrailerRun(p: Parser, i: nat, k: int)
    requires AtChunk(p) && p.chunk.offset < i <= |p.raw|
    ensures Valid(Reading(p, i, CHUNK_TRAILER_START, 0, k))
    ensures TrailerOutcome(p, Reading(p, i, CHUNK_TRAILER_START, 0, k), Trailer(p.raw, i), k)
    decreases |p.raw| - i
  {
    hide Run, Valid;
    ReadingRun(p, i, CHUNK_TRAILER_START, 0, k);
    if i < |p.raw| {
      if p.raw[i] == LF || p.raw[i] == CR {
        BodyEndRun(p, i, k);
      } else {
        TrailerLineRun(p, i + 1, k);
        if EndOfLine(p.raw, i + 1).At? {
          TrailerRun(p, EndOfLine(p.raw, i + 1).next, k);
        }
      }
    }
  }

  /** The parser after one chunk's data was moved down to the decoded bytes. */
  function AfterChunk(p: Parser, q: nat, n: nat): Parser
    requires AtChunk(p) && p.chunk.offset < q && q + n <= |p.raw|
  {
    p.(raw := Moved(p.raw, p.offset + p.contentLength, q, n), contentLength := p.contentLength + n,
       chunk := Chunk(q + n + 2, 0, 0))
  }

  /** The move leaves the bytes behind the chunk as they are. */
  lemma BehindChunk(p: Parser, q: nat, n: nat)
    requires AtChunk(p) && p.chunk.offset < q && q + n + 2 <= |p.raw|
    ensures SameFrom(p.raw, AfterChunk(p, q, n).raw, q + n + 2) && AfterChunk(p, q, n).chunk.offset == q + n + 2
  {
  }

  lemma DataRun(p: Parser, q: nat, n: nat)
    requires AtChunk(p) && p.chunk.offset < q <= |p.raw| && n > 0
    ensures Valid(AfterLine(p, q, n))
    ensures q + n + 2 > |p.raw| ==> Run(AfterLine(p, q, n)).NeedMore?
    ensures q + n + 2 <= |p.raw| ==>
      if p.raw[q + n] != CR || p.raw[q + n + 1] != LF then Run(AfterLine(p, q, n)).Reject?
      else AtChunk(AfterChunk(p, q, n)) && Run(AfterLine(p, q, n)) == Run(AfterChunk(p, q, n))
  {
    hide Run, Moved, ChunkOk, HeadersOk, EncodingSettled;
    ReadingValid(p, q, CHUNK_DATA, n, q);
    var r := AfterLine(p, q, n);
    SameEncoding(p, q, CHUNK_DATA, n, q);
    RunStep(r);
    if q + n + 2 <= |p.raw| && p.raw[q + n] == CR && p.raw[q + n + 1] == LF {
      assert Step(r) == Go(AfterChunk(p, q, n));
    }
  }

  /** What the parser holds when the body is complete: nothing before the decoded bytes and
      nothing behind the body has changed, and the decoded bytes are the data. */
  ghost predicate Holds(p: Parser, q: Parser, data: seq<byte>, next: nat)
    requires AtChunk(p)
  {
    var to := p.offset + p.contentLength;
    q.stateM == SM_DONE && q.offset == p.offset && q.contentLength == p.contentLength + |data| &&
    q.chunk.offset == next && |q.raw| == |p.raw| && to + |data| <= |p.raw| && next <= |p.raw| &&
    q.raw[..to] == p.raw[..to] && q.raw[to..to + |data|] == data &&
    (forall i :: next <= i < |p.raw| ==> q.raw[i] == p.raw[i]) &&
    q.headers == p.headers && q.transferEncoding == p.transferEncoding
  }

  lemma HoldsNext(p: Parser, q: nat, n: nat, r: Parser, data: seq<byte>, next: nat)
    requires AtChunk(p) && p.chunk.offset < q && q + n + 2 <= |p.raw|
    requires AtChunk(AfterChunk(p, q, n)) && Holds(AfterChunk(p, q, n), r, data, next)
    requires q + n < next
    ensures Holds(p, r, p.raw[q..q + n] + data, next)
  {
    var to := p.offset + p.contentLength;
    var p' := AfterChunk(p, q, n);
    assert p'.raw[..to + n] == p.raw[..to] + p.raw[q..q + n];
    assert r.raw[..to] == r.raw[..to + n][..to] == p.raw[..to];
    assert r.raw[to..to + n] == r.raw[..to + n][to..] == p.raw[q..q + n];
    assert r.raw[to..to + n + |data|] == r.raw[to..to + n] + r.raw[to + n..to + n + |data|];
  }

  /** The parser's run agrees with what the coding says. */
  ghost predicate Agrees(p: Parser, b: Body)
    requires AtChunk(p)
  {
    match b
    case Partial => Run(p).NeedMore?
    case Malformed => Run(p).Reject?
    case Complete(data, next) => Run(p).Done? && Holds(p, Run(p).state, data, next)
  }

  /** One chunk's data is in place: what remains is decoded behind it. */
  lemma ChunkAgrees(p: Parser, q: nat, n: nat, b: Body)
    requires AtChunk(p) && p.chunk.offset < q && q + n + 2 <= |p.raw|
    requires AtChunk(AfterChunk(p, q, n)) && Run(p) == Run(AfterChunk(p, q, n))
    requires Agrees(AfterChunk(p, q, n), b)
    requires b.Complete? ==> q + n < b.next
    ensures Agrees(p, if b.Complete? then Complete(p.raw[q..q + n] + b.data, b.next) else b)
  {
    if b.Complete? {
      HoldsNext(p, q, n, Run(p).state, b.data, b.next);
    }
  }

  lemma LastChunkAgrees(p: Parser, q: nat)
    requires AtChunk(p) && p.chunk.offset < q <= |p.raw|
    requires Valid(AfterLine(p, q, 0)) && Run(p) == Run(AfterLine(p, q, 0))
    ensures Agrees(p, match Trailer(p.raw, q) case Open => Partial case Broken => Malformed
      case At(next) => Complete([], next))
  {
    TrailerRun(p, q, q);
  }

  /** The decoder that works in place, over the bytes it is still to read, computes the coding:
      it completes, waits and rejects exactly as the coding says, and the decoded body is the
      concatenation of the chunk data. */
  lemma {:induction false} InPlaceDecoding(p: Parser)
    requires AtChunk(p)
    ensures Agrees(p, Decode(p.raw, p.chunk.offset))
    decreases |p.raw| - p.chunk.offset
  {
    hide *;
    StartRun(p);
    var c := p.chunk.offset;
    var b := Decode(p.raw, c);
    DecodeIs(p.raw, c);
    SizeLineRun(p);
    SizeLineAgrees(p, SizeLine(p.raw, c), HexNumber(p.raw, c, HexEnd(p.raw, c)));
    if SizeLine(p.raw, c).At? {
      var q, n := SizeLine(p.raw, c).next, HexNumber(p.raw, c, HexEnd(p.raw, c));
      if n == 0 {
        LastChunkAgrees(p, q);
      } else {
        DataRun(p, q, n);
        if q + n + 2 <= |p.raw| && p.raw[q + n] == CR && p.raw[q + n + 1] == LF {
          var p' := AfterChunk(p, q, n);
          BehindChunk(p, q, n);
          DecodeSame(p.raw, p'.raw, q + n + 2);
          InPlaceDecoding(p');
          ChunkAgrees(p, q, n, Decode(p.raw, q + n + 2));
        } else {
          AgreesIs(p, b);
        }
      }
    }
  }

  /** A size line that is not complete, or not one, decides alone. */
  lemma SizeLineAgrees(p: Parser, f: Found, n: nat)
    requires AtChunk(p) && LineOutcome(p, p, f, n)
    ensures f.Open? ==> Agrees(p, Partial)
    ensures f.Broken? ==> Agrees(p, Malformed)
    ensures f.At? ==> Valid(AfterLine(p, f.next, n)) && Run(p) == Run(AfterLine(p, f.next, n))
  {
    hide Run, Valid, AfterLine;
  }

  lemma AgreesIs(p: Parser, b: Body)
    requires AtChunk(p)
    ensures b.Partial? ==> (Agrees(p, b) <==> Run(p).NeedMore?)
    ensures b.Malformed? ==> (Agrees(p, b) <==> Run(p).Reject?)
  {
    hide Run, Valid;
  }

  /** From the end of the headers: the whole body of a message with Transfer-Encoding: chunked. */
  lemma ChunkedBody(p: Parser)
    requires Valid(p) && p.stateM == SM_BODY && IsChunked(p) && p.chunk == Chunk(0, 0, 0) && p.contentLength == -1
    ensures match Decode(p.raw, p.offset)
      case Partial => Run(p).NeedMore?
      case Malformed => Run(p).Reject?
      case Complete(data, next) =>
        && Run(p).Done?
        && var q := Run(p).state;
        && q.contentLength == |data| && q.offset == p.offset && q.chunk.offset == next
        && q.offset + |data| <= |q.raw| && q.raw[q.offset..q.offset + |data|] == data
        && q.raw[..p.offset] == p.raw[..p.offset] && q.raw[next..] == p.raw[next..]
  {
    hide Run, Step, Valid, IsChunked, Decode;
    Cursor(p);
    DecoderStarts(p);
    var p0 := p.(chunk := Chunk(p.offset, 0, 0), contentLength := 0);
    InPlaceDecoding(p0);
    if Decode(p.raw, p.offset).Complete? {
      var q, next := Run(p).state, Decode(p.raw, p.offset).next;
      assert q.raw[next..] == p.raw[next..];
    }
  }

  /** The step into the decoder. */
  lemma DecoderStarts(p: Parser)
    requires Valid(p) && p.stateM == SM_BODY && IsChunked(p) && p.chunk == Chunk(0, 0, 0) && p.contentLength == -1
    ensures var p0 := p.(chunk := Chunk(p.offset, 0, 0), contentLength := 0);
      AtChunk(p0) && Run(p) == Run(p0) && 0 < p.offset
  {
    hide Run;
    RunStep(p);
    assert Step(p) == Go(p.(chunk := Chunk(p.offset, 0, 0), contentLength := 0));
  }

  // ---------- what a sender writes is what the coding means ----------

  /** A chunk as a sender writes it: the digits of its size, what it puts behind them, its data. */
  datatype Chunked = Chunked(size: seq<byte>, extension: seq<byte>, data: seq<byte>)

  /** Digits of either case, with leading zeros or not, and an extension that begins with a blank or
      a semicolon and stays on the line. */
  predicate IsChunk(c: Chunked) {
    c.size != [] && (forall i :: 0 <= i < |c.size| ==> IsHex(c.size[i])) &&
    HexNumber(c.size, 0, |c.size|) == |c.data| &&
    OneLine(c.extension) && (c.extension != [] ==> IsBlank(c.extension[0]) || c.extension[0] == SEMICOLON)
  }

  predicate OneLine(t: seq<byte>) {
    forall i :: 0 <= i < |t| ==> t[i] != CR && t[i] != LF
  }

  /** The chunks, the last chunk and the lines of the trailer. */
  datatype Coded = Coded(chunks: seq<Chunked>, last: Chunked, trailer: seq<seq<byte>>)

  predicate IsCoded(b: Coded) {
    (forall i :: 0 <= i < |b.chunks| ==> IsChunk(b.chunks[i]) && b.chunks[i].data != []) &&
    IsChunk(b.last) && b.last.data == [] &&
    forall i :: 0 <= i < |b.trailer| ==> b.trailer[i] != [] && OneLine(b.trailer[i])
  }

  function EncodeSize(c: Chunked): seq<byte> {
    c.size + c.extension + [CR, LF]
  }

  function EncodeTrailer(lines: seq<seq<byte>>): seq<byte> {
    if lines == [] then [CR, LF] else lines[0] + [CR, LF] + EncodeTrailer(lines[1..])
  }

  function EncodeChunk(c: Chunked): seq<byte> {
    EncodeSize(c) + c.data + [CR, LF]
  }

  function Encode(b: Coded): seq<byte>
    decreases |b.chunks|
  {
    if b.chunks == [] then EncodeSize(b.last) + EncodeTrailer(b.trailer)
    else EncodeChunk(b.chunks[0]) + Encode(b.(chunks := b.chunks[1..]))
  }

  /** The data of the chunks, joined. */
  function Joined(chunks: seq<Chunked>): seq<byte> {
    if chunks == [] then [] else chunks[0].data + Joined(chunks[1..])
  }

  lemma {:induction false} EndOfLineIs(s: seq<byte>, p: nat, e: nat)
    requires p <= e && e + 1 < |s| && s[e] == CR && s[e + 1] == LF
    requires forall i :: p <= i < e ==> s[i] != CR && s[i] != LF
    ensures EndOfLine(s, p) == At(e + 2)
    decreases e - p
  {
    if p < e {
      EndOfLineIs(s, p + 1, e);
    }
  }

  lemma {:induction false} HexEndIs(s: seq<byte>, p: nat, e: nat)
    requires p <= e < |s| && !IsHex(s[e])
    requires forall i :: p <= i < e ==> IsHex(s[i])
    ensures HexEnd(s, p) == e
    decreases e - p
  {
    if p < e {
      HexEndIs(s, p + 1, e);
    }
  }

  lemma {:induction false} HexNumberAt(s: seq<byte>, p: nat, t: seq<byte>, k: nat)
    requires Has(s, p, t) && k <= |t|
    ensures HexNumber(s, p, p + k) == HexNumber(t, 0, k)
    decreases k
  {
    if k > 0 {
      HexNumberAt(s, p, t, k - 1);
      assert s[p + (k - 1)] == t[k - 1];
    }
  }

  /** What stands on a line of the text: its bytes, none of them a line end, and CR LF. */
  lemma EndedLine(s: seq<byte>, p: nat, t: seq<byte>)
    requires Has(s, p, t + [CR, LF])
    ensures var e := p + |t|; Has(s, p, t) && e + 1 < |s| && s[e] == CR && s[e + 1] == LF
    ensures OneLine(t) ==> forall i :: p <= i < p + |t| ==> s[i] != CR && s[i] != LF
  {
    HasParts(s, p, t, [CR, LF]);
    assert s[p + |t| + 0] == [CR, LF][0] && s[p + |t| + 1] == [CR, LF][1];
    forall i | p <= i < p + |t|
      ensures s[i] == t[i - p]
    {
      assert s[p + (i - p)] == t[i - p];
    }
  }

  lemma SizeLineReads(s: seq<byte>, p: nat, c: Chunked)
    requires Has(s, p, EncodeSize(c)) && IsChunk(c)
    ensures SizeLine(s, p) == At(p + |EncodeSize(c)|)
    ensures HexNumber(s, p, HexEnd(s, p)) == |c.data|
  {
    hide HexNumber;
    var e := p + |c.size|;
    assert c.size + c.extension + [CR, LF] == c.size + (c.extension + [CR, LF]);
    HasParts(s, p, c.size, c.extension + [CR, LF]);
    EndedLine(s, e, c.extension);
    BehindSize(s, e, c.extension);
    DigitsStand(s, p, c.size);
    HexEndIs(s, p, e);
    HexNumberAt(s, p, c.size, |c.size|);
  }

  lemma DigitsStand(s: seq<byte>, p: nat, size: seq<byte>)
    requires Has(s, p, size) && forall i :: 0 <= i < |size| ==> IsHex(size[i])
    ensures forall i :: p <= i < p + |size| ==> IsHex(s[i])
  {
    forall i | p <= i < p + |size|
      ensures IsHex(s[i])
    {
      assert s[p + (i - p)] == size[i - p];
    }
  }

  lemma BehindSize(s: seq<byte>, e: nat, extension: seq<byte>)
    requires Has(s, e, extension) && OneLine(extension)
    requires extension != [] ==> IsBlank(extension[0]) || extension[0] == SEMICOLON
    requires var n := e + |extension|; n + 1 < |s| && s[n] == CR && s[n + 1] == LF
    requires forall i :: e <= i < e + |extension| ==> s[i] != CR && s[i] != LF
    ensures !IsHex(s[e]) && SizeRest(s, e) == At(e + |extension| + 2)
  {
    if extension != [] {
      assert s[e + 0] == extension[0];
      EndOfLineIs(s, e + 1, e + |extension|);
    }
  }

  lemma {:induction false} TrailerReads(s: seq<byte>, p: nat, lines: seq<seq<byte>>)
    requires Has(s, p, EncodeTrailer(lines))
    requires forall i :: 0 <= i < |lines| ==> lines[i] != [] && OneLine(lines[i])
    ensures Trailer(s, p) == At(p + |EncodeTrailer(lines)|)
    decreases |lines|
  {
    if lines == [] {
      assert s[p + 0] == [CR, LF][0] && s[p + 1] == [CR, LF][1];
      assert EndOfLine(s, p) == At(p + 2);
    } else {
      var line, rest := lines[0], EncodeTrailer(lines[1..]);
      HasParts(s, p, line + [CR, LF], rest);
      EndedLine(s, p, line);
      EndOfLineIs(s, p + 1, p + |line|);
      TrailerReads(s, p + |line| + 2, lines[1..]);
    }
  }

  lemma DecodeOne(s: seq<byte>, p: nat, q: nat, c: seq<byte>, data: seq<byte>, next: nat)
    requires p <= |s| && c != []
    requires SizeLine(s, p) == At(q) && HexNumber(s, p, HexEnd(s, p)) == |c|
    requires q + |c| + 2 <= |s| && s[q..q + |c|] == c && s[q + |c|] == CR && s[q + |c| + 1] == LF
    requires Decode(s, q + |c| + 2) == Complete(data, next)
    ensures Decode(s, p) == Complete(c + data, next)
  {
    hide SizeLine, HexNumber, HexEnd, Trailer;
  }

  lemma ChunkReads(s: seq<byte>, p: nat, c: Chunked)
    requires Has(s, p, EncodeChunk(c)) && IsChunk(c)
    ensures var q := p + |EncodeSize(c)|;
      && SizeLine(s, p) == At(q) && HexNumber(s, p, HexEnd(s, p)) == |c.data|
      && q + |c.data| + 2 == p + |EncodeChunk(c)| <= |s| && s[q..q + |c.data|] == c.data
      && s[q + |c.data|] == CR && s[q + |c.data| + 1] == LF
  {
    hide IsChunk, EncodeSize, SizeLine, HexNumber, HexEnd;
    var q := p + |EncodeSize(c)|;
    assert EncodeSize(c) + c.data + [CR, LF] == EncodeSize(c) + (c.data + [CR, LF]);
    HasParts(s, p, EncodeSize(c), c.data + [CR, LF]);
    EndedLine(s, q, c.data);
    HasSlice(s, q, c.data);
    SizeLineReads(s, p, c);
  }

  lemma LastChunkReads(s: seq<byte>, p: nat, b: Coded)
    requires Has(s, p, EncodeSize(b.last) + EncodeTrailer(b.trailer)) && IsCoded(b)
    ensures Decode(s, p) == Complete([], p + |EncodeSize(b.last) + EncodeTrailer(b.trailer)|)
  {
    hide IsChunk, EncodeSize, SizeLine, HexNumber, HexEnd, Trailer;
    var q := p + |EncodeSize(b.last)|;
    HasParts(s, p, EncodeSize(b.last), EncodeTrailer(b.trailer));
    SizeLineReads(s, p, b.last);
    TrailerReads(s, q, b.trailer);
  }

  /** Decoding what was encoded gives back the data of the chunks, joined, whatever the sizes look
      like, the extensions and the trailer say, and stands before and behind it. */
  lemma {:induction false} DecodeEncoded(s: seq<byte>, p: nat, b: Coded)
    requires Has(s, p, Encode(b)) && IsCoded(b)
    ensures Decode(s, p) == Complete(Joined(b.chunks), p + |Encode(b)|)
    decreases |b.chunks|
  {
    hide Decode, EncodeSize, EncodeTrailer, EncodeChunk, IsChunk, SizeLine, HexNumber, HexEnd;
    if b.chunks == [] {
      LastChunkReads(s, p, b);
    } else {
      var c, rest := b.chunks[0], b.(chunks := b.chunks[1..]);
      HasParts(s, p, EncodeChunk(c), Encode(rest));
      ChunkReads(s, p, c);
      DecodeEncoded(s, p + |EncodeChunk(c)|, rest);
      DecodeOne(s, p, p + |EncodeSize(c)|, c.data, Joined(rest.chunks), p + |Encode(b)|);
    }
  }

  /** The shortest way to write a size, in lower case. */
  function HexText(n: nat): (t: seq<byte>)
    ensures t != []
  {
    if n < 16 then [HexDigit(n, LOWER_A)] else HexText(n / 16) + [HexDigit(n % 16, LOWER_A)]
  }

  lemma {:induction false} HexTextReads(n: nat)
    ensures HexNumber(HexText(n), 0, |HexText(n)|) == n
    ensures forall i :: 0 <= i < |HexText(n)| ==> IsHex(HexText(n)[i])
    decreases n
  {
    var t := HexText(n);
    if n < 16 {
      assert HexNumber(t, 0, 0) == 0;
    } else {
      var front := HexText(n / 16);
      HexTextReads(n / 16);
      HexNumberAt(t, 0, front, |front|);
    }
  }

  /** Any data can be sent as one chunk without extension. */
  lemma PlainChunk(data: seq<byte>)
    ensures IsChunk(Chunked(HexText(|data|), [], data))
  {
    HexTextReads(|data|);
  }
}
