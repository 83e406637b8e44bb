/**
 Content-Length framing (the base protocol of LSP and DAP): the printer, the
 incremental bounded parser over a chunked reader, and the function of the whole
 byte stream that the parser computes whatever the chunks are.
 */
module Framing {
  import opened Bytes
  import opened Decimal

  const MAX_BODY_BYTES: nat := 16 * 1024 * 1024
  const MAX_HEADER_LINE_BYTES: nat := 8 * 1024
  const MAX_HEADER_TOTAL_BYTES: nat := 64 * 1024
  const CONTENT_LENGTH_PREFIX: string := "Content-Length:"
  const NEWLINE: Byte := 10

  // What the reader reports once its bytes are used up.
  datatype StreamEnd = Eof | Broken

  datatype ErrorKind = UnexpectedEof | InvalidData | Transport

  // The outcome of decoding a whole stream: a body and the bytes after it, or an error.
  datatype Decoded = Frame(body: seq<Byte>, rest: seq<Byte>) | Error(kind: ErrorKind)

  // Lossy UTF-8 decoding of a header line is a parameter. Headers are ASCII, and
  // there it must be exact.
  type Lossy = seq<Byte> -> string

  // What one raw header line means to the parser.
  type Classifier = seq<Byte> -> HeaderLine

  ghost predicate ExactOnAscii(lossy: Lossy) {
    forall b: seq<Byte> :: IsAscii(b) ==> lossy(b) == AsciiText(b)
  }

  // ---------------------------------------------------------------- header lines

  // Length of the first line, its newline included, or of everything if there is none.
  function LineLen(s: seq<Byte>): (n: nat)
    ensures n <= |s| && (n == 0 <==> s == [])
  {
    LineLenFrom(s, 0)
  }

  function LineLenFrom(s: seq<Byte>, i: nat): (n: nat)
    requires i <= |s|
    ensures i <= n <= |s| && (n == i <==> i == |s|)
    decreases |s| - i
  {
    if i == |s| then i else if s[i] == NEWLINE then i + 1 else LineLenFrom(s, i + 1)
  }

  lemma {:induction false} LineLenFromFinds(s: seq<Byte>, i: nat)
    requires i <= |s| && NEWLINE !in s[..i]
    ensures var n := LineLenFrom(s, i);
            && NEWLINE !in s[..if n == i then i else n - 1]
            && (n < |s| ==> s[n - 1] == NEWLINE)
    decreases |s| - i
  {
    if i < |s| && s[i] != NEWLINE {
      assert s[..i + 1] == s[..i] + [s[i]];
      LineLenFromFinds(s, i + 1);
    }
  }

  // The first newline, if there is one, is where the first line ends.
  lemma LineLenFinds(s: seq<Byte>)
    requires s != []
    ensures NEWLINE !in s[..LineLen(s) - 1]
    ensures LineLen(s) < |s| ==> s[LineLen(s) - 1] == NEWLINE
  {
    LineLenFromFinds(s, 0);
  }

  predicate Terminated(s: seq<Byte>) {
    NEWLINE in s
  }

  // How reading the first line of a stream fails, if it does.
  function LineError(s: seq<Byte>, max: nat, end: StreamEnd): Option<ErrorKind> {
    if LineLen(s) > max then Some(InvalidData)
    else if !Terminated(s) && end.Broken? then Some(Transport)
    else None
  }

  predicate IsWhitespace(c: char) {
    var n := c as int;
    || 9 <= n <= 13 || n == 0x20 || n == 0x85 || n == 0xA0 || n == 0x1680
    || 0x2000 <= n <= 0x200A || n == 0x2028 || n == 0x2029 || n == 0x202F
    || n == 0x205F || n == 0x3000
  }

  function TrimLineEnd(s: string): string {
    if s != [] && (s[|s| - 1] == '\r' || s[|s| - 1] == '\n') then TrimLineEnd(s[..|s| - 1]) else s
  }

  function TrimStart(s: string): string {
    if s != [] && IsWhitespace(s[0]) then TrimStart(s[1..]) else s
  }

  function Trim(s: string): string {
    if s != [] && IsWhitespace(s[|s| - 1]) then Trim(s[..|s| - 1]) else TrimStart(s)
  }

  type BodyLength = n: nat | n <= MAX_BODY_BYTES

  datatype HeaderLine = EndOfHeaders | ContentLength(n: BodyLength) | BadLength | Other

  function Classify(line: string): HeaderLine {
    var trimmed := TrimLineEnd(line);
    if trimmed == [] then EndOfHeaders
    else if CONTENT_LENGTH_PREFIX <= trimmed then
      match ParseUsize(Trim(trimmed[|CONTENT_LENGTH_PREFIX|..]))
      case None => BadLength
      case Some(n) => if n > MAX_BODY_BYTES then BadLength else ContentLength(n)
    else Other
  }

  function HeaderRules(lossy: Lossy): Classifier {
    (line: seq<Byte>) => Classify(lossy(line))
  }

  // ------------------------------------------------- meaning of a whole stream

  function TakeBody(s: seq<Byte>, end: StreamEnd, len: nat): Decoded {
    if len <= |s| then Frame(s[..len], s[len..])
    else Error(if end.Eof? then UnexpectedEof else Transport)
  }

  // What the first line of the rest of a stream brings: failure, the blank line before
  // a body of this length, or one more header.
  datatype Turn = Fails(kind: ErrorKind) | Body(len: nat) | More(length: Option<nat>)

  function FirstTurn(classify: Classifier, s: seq<Byte>, end: StreamEnd, total: nat, len: Option<nat>): (turn: Turn)
    ensures !turn.Fails? ==> LineLen(s) > 0
  {
    var n := LineLen(s);
    if LineError(s, MAX_HEADER_LINE_BYTES, end).Some? then Fails(LineError(s, MAX_HEADER_LINE_BYTES, end).value)
    else if n == 0 then Fails(UnexpectedEof)
    else if total + n > MAX_HEADER_TOTAL_BYTES then Fails(InvalidData)
    else TurnOf(classify(s[..n]), len)
  }

  function TurnOf(header: HeaderLine, len: Option<nat>): Turn {
    match header
    case EndOfHeaders => if len.None? then Fails(InvalidData) else Body(len.value)
    case BadLength => Fails(InvalidData)
    case ContentLength(k) => More(Some(k))
    case Other => More(len)
  }

  function DecodeFrom(classify: Classifier, s: seq<Byte>, end: StreamEnd, total: nat, len: Option<nat>): Decoded
    decreases |s|
  {
    match FirstTurn(classify, s, end, total, len)
    case Fails(kind) => Error(kind)
    case Body(k) => TakeBody(s[LineLen(s)..], end, k)
    case More(len') => DecodeFrom(classify, s[LineLen(s)..], end, total + LineLen(s), len')
  }

  function Decode(lossy: Lossy, s: seq<Byte>, end: StreamEnd): Decoded {
    DecodeFrom(HeaderRules(lossy), s, end, 0, None)
  }

  // ------------------------------------------------------------ the reader object

  function Flatten(chunks: seq<seq<Byte>>): seq<Byte> {
    if chunks == [] then [] else chunks[0] + Flatten(chunks[1..])
  }

  // A buffered reader: the peer's bytes cut into arbitrary non-empty chunks.
  class Reader {
    var chunks: seq<seq<Byte>>
    const end: StreamEnd

    ghost predicate Valid()
      reads this
    {
      forall i :: 0 <= i < |chunks| ==> chunks[i] != []
    }

    ghost function Remaining(): seq<Byte>
      reads this
    {
      Flatten(chunks)
    }

    constructor (chunks: seq<seq<Byte>>, end: StreamEnd)
      requires forall i :: 0 <= i < |chunks| ==> chunks[i] != []
      ensures Valid() && this.chunks == chunks && this.end == end
    {
      this.chunks := chunks;
      this.end := end;
    }

    // `fill_buf`: the bytes at hand; none at end of stream; an error on a broken one.
    // `later` is the bytes still to come.
    method FillBuf() returns (available: Option<seq<Byte>>, ghost later: seq<Byte>)
      requires Valid()
      ensures available.None? ==> end.Broken? && Remaining() == []
      ensures available.Some? ==> Remaining() == available.value + later
      ensures available.Some? && available.value == [] ==> end.Eof? && later == []
      ensures available.Some? && available.value != [] ==> chunks != [] && available.value == chunks[0]
    {
      later := if chunks == [] then [] else Flatten(chunks[1..]);
      if chunks != [] {
        available := Some(chunks[0]);
      } else if end.Eof? {
        available := Some([]);
      } else {
        available := None;
      }
    }

    // `consume`: drop bytes from the front of the chunk at hand.
    method Consume(n: nat)
      requires Valid() && chunks != [] && 0 < n <= |chunks[0]|
      modifies this
      ensures Valid()
      ensures Remaining() == old(Remaining())[n..]
      ensures |chunks| <= old(|chunks|)
      ensures |Remaining()| == old(|Remaining()|) - n
      ensures n == old(|chunks[0]|) ==> chunks == old(chunks)[1..]
    {
      assert Flatten(chunks) == chunks[0] + Flatten(chunks[1..]);
      if n == |chunks[0]| {
        chunks := chunks[1..];
      } else {
        chunks := [chunks[0][n..]] + chunks[1..];
        assert chunks[1..] == old(chunks)[1..];
      }
    }

    // One read of at most `n` bytes; none means the end, or an error on a broken stream.
    method ReadSome(n: nat) returns (bytes: seq<Byte>)
      requires Valid() && n > 0
      modifies this
      ensures Valid() && |bytes| <= n
      ensures old(Remaining()) == bytes + Remaining()
      ensures bytes == [] ==> Remaining() == []
    {
      ghost var before := Remaining();
      var available, later := FillBuf();
      if available.None? || available.value == [] {
        return [];
      }
      var take := if |available.value| <= n then |available.value| else n;
      bytes := available.value[..take];
      assert before == available.value + later;
      assert before[..take] == bytes;
      Consume(take);
    }
  }

  lemma LineLenIs(s: seq<Byte>, n: nat)
    requires 0 < n <= |s| && s[n - 1] == NEWLINE && NEWLINE !in s[..n - 1]
    ensures LineLen(s) == n && Terminated(s)
  {
    assert NEWLINE in s;
    LineLenFinds(s);
  }

  // An unfinished `line` runs on to the first newline of what follows.
  lemma LineEnds(line: seq<Byte>, avail: seq<Byte>, tail: seq<Byte>, s: seq<Byte>)
    requires !Terminated(line) && Terminated(avail) && s == line + (avail + tail)
    ensures var n := |line| + LineLen(avail);
            && Terminated(s) && LineLen(s) == n
            && s[..n] == line + avail[..LineLen(avail)] && s[n..] == (avail + tail)[LineLen(avail)..]
  {
    var k := LineLen(avail);
    LineLenFinds(avail);
    assert avail[..k] == avail[..k - 1] + [avail[k - 1]];
    assert k == |avail| ==> avail == avail[..k];
    LineLenIs(s, |line| + k);
  }

  // Without a newline the line goes on.
  lemma LineGoesOn(line: seq<Byte>, avail: seq<Byte>, tail: seq<Byte>, s: seq<Byte>)
    requires !Terminated(line) && !Terminated(avail) && s == line + (avail + tail)
    ensures LineLen(avail) == |avail| && LineLen(s) >= |line| + |avail|
    ensures !Terminated(line + avail) && s == (line + avail) + tail
  {
    if avail != [] { LineLenFinds(avail); }
    if s != [] { LineLenFinds(s); }
    assert NEWLINE !in s[..|line| + |avail|];
  }

  lemma UnfinishedLine(line: seq<Byte>)
    requires !Terminated(line)
    ensures LineLen(line) == |line| && line[..|line|] == line && line[|line|..] == []
  {
    if line != [] { LineLenFinds(line); }
  }

  // `read_header_line`: the first line of the stream, whatever its chunks, or the
  // error. At most `max` bytes are ever taken and buffered.
  method ReadHeaderLine(reader: Reader, max: nat) returns (line: seq<Byte>, err: Option<ErrorKind>)
    requires reader.Valid()
    modifies reader
    ensures reader.Valid()
    ensures |reader.Remaining()| <= old(|reader.Remaining()|) <= |reader.Remaining()| + max
    ensures err == LineError(old(reader.Remaining()), max, reader.end)
    ensures err.None? ==>
              && line == old(reader.Remaining())[..LineLen(old(reader.Remaining()))]
              && reader.Remaining() == old(reader.Remaining())[LineLen(old(reader.Remaining()))..]
  {
    line, err := [], None;
    ghost var s := reader.Remaining();
    while true
      invariant reader.Valid()
      invariant s == line + reader.Remaining()
      invariant |line| <= max
      invariant !Terminated(line)
      decreases |reader.Remaining()|
    {
      var available, later := reader.FillBuf();
      if available.None? || available.value == [] {
        assert s == line;
        UnfinishedLine(line);
        return line, if available.None? then Some(Transport) else None;
      }
      var take := LineLen(available.value);
      assert s == line + (available.value + later);
      if Terminated(available.value) {
        LineEnds(line, available.value, later, s);
      } else {
        LineGoesOn(line, available.value, later, s);
      }
      if |line| + take > max {
        return line, Some(InvalidData);
      }
      reader.Consume(take);
      if Terminated(available.value) {
        return line + available.value[..take], None;
      }
      line := line + available.value;
    }
  }

  // `read_exact` into a buffer of `len` bytes.
  method ReadExact(reader: Reader, len: nat) returns (body: seq<Byte>, err: Option<ErrorKind>)
    requires reader.Valid()
    modifies reader
    ensures reader.Valid()
    ensures old(reader.Remaining()) == body + reader.Remaining() && |body| <= len
    ensures match TakeBody(old(reader.Remaining()), reader.end, len)
            case Frame(b, rest) => err == None && body == b && reader.Remaining() == rest
            case Error(kind) => err == Some(kind)
  {
    body, err := [], None;
    ghost var s := reader.Remaining();
    while |body| < len
      invariant reader.Valid() && |body| <= len
      invariant s == body + reader.Remaining()
      decreases len - |body|
    {
      var part := reader.ReadSome(len - |body|);
      if part == [] {
        return body, Some(if reader.end.Broken? then Transport else UnexpectedEof);
      }
      assert (body + part) + reader.Remaining() == body + (part + reader.Remaining());
      body := body + part;
    }
    assert s[..len] == body && s[len..] == reader.Remaining();
  }

  // One turn of the header loop.
  method HeaderTurn(classify: Classifier, reader: Reader, total: nat, len: Option<nat>) returns (turn: Turn, bytes: nat)
    requires reader.Valid()
    modifies reader
    ensures reader.Valid()
    ensures turn == FirstTurn(classify, old(reader.Remaining()), reader.end, total, len)
    ensures turn.Body? ==> len == Some(turn.len)
    ensures |reader.Remaining()| <= old(|reader.Remaining()|) <= |reader.Remaining()| + MAX_HEADER_LINE_BYTES
    ensures !turn.Fails? ==>
              && reader.Remaining() == old(reader.Remaining())[LineLen(old(reader.Remaining()))..]
              && bytes == LineLen(old(reader.Remaining())) && 0 < bytes <= MAX_HEADER_TOTAL_BYTES - total
              && (turn.More? && turn.length.Some? ==> turn.length == len || turn.length.value <= MAX_BODY_BYTES)
  {
    var line, err := ReadHeaderLine(reader, MAX_HEADER_LINE_BYTES);
    if err.Some? {
      return Fails(err.value), 0;
    }
    if |line| == 0 {
      return Fails(UnexpectedEof), 0;
    }
    if total + |line| > MAX_HEADER_TOTAL_BYTES {
      return Fails(InvalidData), 0;
    }
    turn, bytes := TurnOf(classify(line), len), |line|;
  }

  // The header loop: `length` body bytes follow, or the error. `decoded` is what the
  // whole stream decodes to.
  method ReadHeaders(classify: Classifier, reader: Reader, ghost decoded: Decoded)
    returns (err: Option<ErrorKind>, length: nat)
    requires reader.Valid()
    requires decoded == DecodeFrom(classify, reader.Remaining(), reader.end, 0, None)
    modifies reader
    ensures reader.Valid() && length <= MAX_BODY_BYTES
    ensures decoded == if err.Some? then Error(err.value) else TakeBody(reader.Remaining(), reader.end, length)
    ensures var consumed := old(|reader.Remaining()|) - |reader.Remaining()|;
            && 0 <= consumed <= MAX_HEADER_TOTAL_BYTES + MAX_HEADER_LINE_BYTES
            && (err.None? ==> 0 < consumed <= MAX_HEADER_TOTAL_BYTES)
  {
    var contentLength: Option<nat> := None;
    var headerTotal := 0;
    while true
      invariant reader.Valid()
      invariant headerTotal + |reader.Remaining()| == old(|reader.Remaining()|)
      invariant headerTotal <= MAX_HEADER_TOTAL_BYTES
      invariant contentLength.Some? ==> contentLength.value <= MAX_BODY_BYTES
      invariant decoded == DecodeFrom(classify, reader.Remaining(), reader.end, headerTotal, contentLength)
      decreases |reader.Remaining()|
    {
      var turn, bytes := HeaderTurn(classify, reader, headerTotal, contentLength);
      match turn {
        case Fails(kind) => return Some(kind), 0;
        case Body(n) => return None, n;
        case More(len) => contentLength := len;
      }
      headerTotal := headerTotal + bytes;
    }
  }

  // `decode_frame`: the result depends on the bytes only, never on how they are
  // chunked, and every resource it takes is bounded. `bufferSize` is the size of the
  // body buffer it created, if it got that far.
  method DecodeFrame(classify: Classifier, reader: Reader)
    returns (body: seq<Byte>, err: Option<ErrorKind>, bufferSize: nat)
    requires reader.Valid()
    modifies reader
    ensures reader.Valid()
    ensures match DecodeFrom(classify, old(reader.Remaining()), reader.end, 0, None)
            case Frame(b, rest) => err == None && body == b && reader.Remaining() == rest
            case Error(kind) => err == Some(kind)
    ensures bufferSize <= MAX_BODY_BYTES
    ensures var consumed := old(|reader.Remaining()|) - |reader.Remaining()|;
            && 0 <= consumed <= MAX_HEADER_TOTAL_BYTES + MAX_HEADER_LINE_BYTES + bufferSize
            && (err.None? ==> |body| == bufferSize < consumed <= MAX_HEADER_TOTAL_BYTES + bufferSize)
  {
    body, bufferSize := [], 0;
    var length;
    err, length := ReadHeaders(classify, reader, DecodeFrom(classify, reader.Remaining(), reader.end, 0, None));
    if err.Some? {
      return;
    }
    bufferSize := length;
    body, err := ReadExact(reader, bufferSize);
  }
}
