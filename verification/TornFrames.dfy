/** What a peer makes of a frame that is written behind the start of another one. */
module TornFrames {
  import opened Bytes
  import opened Decimal
  import opened Framing
  import opened FramingTheorems

  const BLANK_LINE: seq<Byte> := [13, 10]

  // The printed Content-Length line, in bytes.
  function LengthBytes(n: nat): seq<Byte> {
    AsciiBytes(LengthLine(n))
  }

  lemma FrameParts(body: seq<Byte>)
    ensures EncodeFrame(body) == LengthBytes(|body|) + (BLANK_LINE + body)
  {
    assert AsciiBytes("\r\n") == BLANK_LINE;
  }

  // ------------------------------------------------------------------ joined lines

  lemma {:induction false} TrimStartKeeps(s: string, c: char)
    requires c in s && !IsWhitespace(c)
    ensures c in TrimStart(s)
  {
    if IsWhitespace(s[0]) {
      assert s == [s[0]] + s[1..];
      TrimStartKeeps(s[1..], c);
    }
  }

  lemma {:induction false} TrimKeeps(s: string, c: char)
    requires c in s && !IsWhitespace(c)
    ensures c in Trim(s)
  {
    if IsWhitespace(s[|s| - 1]) {
      assert s == s[..|s| - 1] + [s[|s| - 1]];
      TrimKeeps(s[..|s| - 1], c);
    } else {
      TrimStartKeeps(s, c);
    }
  }

  // A value with a letter in it is no number.
  lemma LetterIsBad(value: string)
    requires 'C' in value
    ensures ParseUsize(Trim(value)).None?
  {
    TrimKeeps(value, 'C');
    var t := Trim(value);
    if t[0] == '+' {
      assert t == ['+'] + t[1..];
      assert 'C' in t[1..];
    }
  }

  lemma TrimmedLine(x: string, n: nat)
    ensures TrimLineEnd(x + LengthLine(n)) == x + (CONTENT_LENGTH_PREFIX + " " + Print(n))
  {
    var t := x + (CONTENT_LENGTH_PREFIX + " " + Print(n));
    var s := x + LengthLine(n);
    var last := Print(n)[|Print(n)| - 1];
    assert s == t + "\r\n";
    assert s[..|s| - 1] == t + "\r" && (t + "\r")[..|t|] == t;
    assert t[|t| - 1] == last && IsDigit(last);
    assert TrimLineEnd(s) == TrimLineEnd(t + "\r") == TrimLineEnd(t) == t;
  }

  // A length line behind the unfinished start of another is refused or ignored.
  lemma JoinedClass(n: nat, k: nat, m: nat)
    requires 0 < k < |LengthLine(n)|
    ensures var h := Classify(LengthLine(n)[..k] + LengthLine(m)); h == Other || h == BadLength
  {
    var x := LengthLine(n)[..k];
    var t := x + (CONTENT_LENGTH_PREFIX + " " + Print(m));
    TrimmedLine(x, m);
    assert t[k] == 'C';
    if k < |CONTENT_LENGTH_PREFIX| {
      assert CONTENT_LENGTH_PREFIX[k] != 'C';
    } else {
      var value := t[|CONTENT_LENGTH_PREFIX|..];
      assert value[k - |CONTENT_LENGTH_PREFIX|] == 'C';
      LetterIsBad(value);
    }
  }

  lemma BehindReturnClass(m: nat)
    ensures Classify("\r" + LengthLine(m)) == Other
  {
    TrimmedLine("\r", m);
  }

  lemma AsciiConcat(x: string, y: string)
    requires IsAsciiText(x) && IsAsciiText(y)
    ensures IsAsciiText(x + y) && AsciiBytes(x + y) == AsciiBytes(x) + AsciiBytes(y)
  {
  }

  // One line, well within the caps, whatever follows.
  ghost predicate Short(line: seq<Byte>) {
    |line| <= 200 && forall ends :: IsLine(line, ends)
  }

  // A length line behind some text without a newline is one line.
  lemma JoinedLine(lossy: Lossy, x: string, m: nat)
    requires ExactOnAscii(lossy) && m <= USIZE_MAX
    requires IsAsciiText(x) && '\n' !in x && |x| <= 100
    ensures Short(AsciiBytes(x) + LengthBytes(m))
    ensures HeaderRules(lossy)(AsciiBytes(x) + LengthBytes(m)) == Classify(x + LengthLine(m))
  {
    var inner := LengthBytes(m);
    var raw := AsciiBytes(x) + inner;
    LengthLineBytes(lossy, m);
    AsciiConcat(x, LengthLine(m));
    AsciiRoundTrip(x + LengthLine(m));
    assert raw[..|raw| - 1] == AsciiBytes(x) + inner[..|inner| - 1];
    assert NEWLINE !in AsciiBytes(x) by {
      forall i | 0 <= i < |x| ensures AsciiBytes(x)[i] != NEWLINE { assert x[i] in x; }
    }
  }

  // How a classifier takes the lines that matter: a length line, the same behind a
  // carriage return, and the blank line.
  ghost predicate Knows(classify: Classifier, n: nat) {
    && Short(LengthBytes(n)) && |LengthBytes(n)| <= 100
    && Short([13] + LengthBytes(n)) && Short(BLANK_LINE)
    && classify(LengthBytes(n)) == (if n <= MAX_BODY_BYTES then ContentLength(n) else BadLength)
    && classify([13] + LengthBytes(n)) == Other
    && classify(BLANK_LINE) == EndOfHeaders
  }

  lemma HeaderRulesKnow(lossy: Lossy, n: nat)
    requires ExactOnAscii(lossy) && n <= USIZE_MAX
    ensures Knows(HeaderRules(lossy), n)
  {
    LengthLineBytes(lossy, n);
    BlankLineBytes(lossy);
    assert BLANK_LINE[..1] == [13];
    assert AsciiBytes("\r") == [13];
    JoinedLine(lossy, "\r", n);
    BehindReturnClass(n);
  }

  // ------------------------------------------------------------------ the parts of a stream

  lemma ShortLine(classify: Classifier, line: seq<Byte>, rest: seq<Byte>, end: StreamEnd, total: nat, len: Option<nat>,
                  d: Decoded)
    requires Short(line) && total <= 1000 && d == DecodeFrom(classify, line + rest, end, total, len)
    ensures d == match classify(line)
                 case EndOfHeaders => if len.None? then Error(InvalidData) else TakeBody(rest, end, len.value)
                 case BadLength => Error(InvalidData)
                 case ContentLength(n) => DecodeFrom(classify, rest, end, total + |line|, Some(n))
                 case Other => DecodeFrom(classify, rest, end, total + |line|, len)
  {
    assert IsLine(line, false) && IsLine(line, rest == [] && end.Eof?);
    FirstLineOf(line, rest, end);
  }

  // Some line of no use or a length, then the blank line: the body is what follows.
  lemma ThenBlank(classify: Classifier, line: seq<Byte>, blank: seq<Byte>, rest: seq<Byte>, end: StreamEnd, total: nat,
                  len: Option<nat>, len': Option<nat>, d: Decoded)
    requires Short(line) && Short(blank) && total <= 500 && classify(blank).EndOfHeaders?
    requires if classify(line).Other? then len' == len
             else classify(line).ContentLength? && len' == Some(classify(line).n)
    requires d == DecodeFrom(classify, line + (blank + rest), end, total, len)
    ensures d == if len'.None? then Error(InvalidData) else TakeBody(rest, end, len'.value)
  {
    ShortLine(classify, line, blank + rest, end, total, len, d);
    ShortLine(classify, blank, rest, end, total + |line|, len', d);
  }

  // A whole frame behind other headers: the last length wins.
  lemma FrameBehind(classify: Classifier, body: seq<Byte>, tail: seq<Byte>, end: StreamEnd, total: nat,
                    len: Option<nat>)
    requires Knows(classify, |body|) && total <= 100
    ensures DecodeFrom(classify, EncodeFrame(body) + tail, end, total, len)
         == if |body| <= MAX_BODY_BYTES then Frame(body, tail) else Error(InvalidData)
  {
    var line, rest := LengthBytes(|body|), BLANK_LINE + (body + tail);
    FrameParts(body);
    assert EncodeFrame(body) + tail == line + rest;
    var d := DecodeFrom(classify, line + rest, end, total, len);
    if |body| <= MAX_BODY_BYTES {
      ThenBlank(classify, line, BLANK_LINE, body + tail, end, total, len, Some(|body|), d);
      EqualLengths(body, tail, end, |body|);
    } else {
      ShortLine(classify, line, rest, end, total, len, d);
    }
  }

  lemma EqualLengths(body: seq<Byte>, tail: seq<Byte>, end: StreamEnd, n: nat)
    ensures TakeBody(body + tail, end, n) == Frame(body, tail) <==> n == |body|
  {
    assert (body + tail)[..|body|] == body && (body + tail)[|body|..] == tail;
  }

  // ------------------------------------------------------------------ behind a torn frame

  // The first `k` bytes of one frame, then a whole one and whatever follows.
  function TornStream(torn: seq<Byte>, k: nat, body: seq<Byte>, tail: seq<Byte>): seq<Byte>
    requires k <= |EncodeFrame(torn)|
  {
    EncodeFrame(torn)[..k] + (EncodeFrame(body) + tail)
  }

  // What it decodes to. Cut inside the length line: an error. Just behind it: the
  // second frame. Inside the blank line or later: as many bytes as the first frame
  // announced, taken from where its body would be.
  function AfterTear(torn: seq<Byte>, k: nat, body: seq<Byte>, tail: seq<Byte>, end: StreamEnd): Decoded
    requires k <= |EncodeFrame(torn)|
  {
    var line := |LengthLine(|torn|)|;
    if k < line || |torn| > MAX_BODY_BYTES then Error(InvalidData)
    else if k == line then if |body| <= MAX_BODY_BYTES then Frame(body, tail) else Error(InvalidData)
    else if k == line + 1 then TakeBody(body + tail, end, |torn|)
    else
      assert |EncodeFrame(torn)| == line + 2 + |torn| by { FrameParts(torn); }
      TakeBody(torn[..k - line - 2] + (EncodeFrame(body) + tail), end, |torn|)
  }

  // Cut inside the length line: it runs into the next one.
  lemma TornInLine(lossy: Lossy, torn: seq<Byte>, k: nat, body: seq<Byte>, tail: seq<Byte>, end: StreamEnd)
    requires ExactOnAscii(lossy) && |torn| <= USIZE_MAX && |body| <= USIZE_MAX
    requires 0 < k < |LengthLine(|torn|)|
    ensures k <= |EncodeFrame(torn)|
    ensures Decode(lossy, TornStream(torn, k, body, tail), end) == Error(InvalidData)
  {
    var x, rest := LengthLine(|torn|)[..k], BLANK_LINE + (body + tail);
    var raw := AsciiBytes(x) + LengthBytes(|body|);
    FrameParts(torn);
    FrameParts(body);
    assert EncodeFrame(torn)[..k] == AsciiBytes(x);
    assert TornStream(torn, k, body, tail) == raw + rest;
    LengthLineBytes(lossy, |torn|);
    NoNewlineInside(|torn|, k);
    JoinedLine(lossy, x, |body|);
    JoinedClass(|torn|, k, |body|);
    HeaderRulesKnow(lossy, |body|);
    Useless(HeaderRules(lossy), raw, body + tail, end);
  }

  lemma Useless(classify: Classifier, raw: seq<Byte>, rest: seq<Byte>, end: StreamEnd)
    requires Short(raw) && Short(BLANK_LINE) && classify(BLANK_LINE).EndOfHeaders?
    requires classify(raw).Other? || classify(raw).BadLength?
    ensures DecodeFrom(classify, raw + (BLANK_LINE + rest), end, 0, None) == Error(InvalidData)
  {
    var d := DecodeFrom(classify, raw + (BLANK_LINE + rest), end, 0, None);
    if classify(raw).Other? {
      ThenBlank(classify, raw, BLANK_LINE, rest, end, 0, None, None, d);
    } else {
      ShortLine(classify, raw, BLANK_LINE + rest, end, 0, None, d);
    }
  }

  lemma NoNewlineInside(n: nat, k: nat)
    requires k < |LengthLine(n)|
    ensures '\n' !in LengthLine(n)[..k]
  {
    var s, digits := LengthLine(n), Print(n);
    forall i | 0 <= i < k ensures s[i] != '\n' {
      if 16 <= i < 16 + |digits| { assert s[i] == digits[i - 16] && IsDigit(digits[i - 16]); }
    }
  }

  // Cut between the two bytes of the blank line: the next length line is hidden.
  lemma TornInBlank(classify: Classifier, n: nat, body: seq<Byte>, tail: seq<Byte>, end: StreamEnd, total: nat)
    requires Knows(classify, |body|) && total <= 100
    ensures DecodeFrom(classify, [13] + (EncodeFrame(body) + tail), end, total, Some(n))
         == TakeBody(body + tail, end, n)
  {
    var raw, rest := [13] + LengthBytes(|body|), BLANK_LINE + (body + tail);
    FrameParts(body);
    assert [13] + (EncodeFrame(body) + tail) == raw + rest;
    ThenBlank(classify, raw, BLANK_LINE, body + tail, end, total, Some(n), Some(n),
              DecodeFrom(classify, raw + rest, end, total, Some(n)));
  }

  lemma PrefixOfConcat(a: seq<Byte>, b: seq<Byte>, j: nat)
    requires j <= |b|
    ensures (a + b)[..|a| + j] == a + b[..j]
  {
  }

  lemma Regroup(a: seq<Byte>, b: seq<Byte>, c: seq<Byte>)
    ensures (a + b) + c == a + (b + c)
  {
  }

  // What is left of a torn frame behind its length line, then the rest of the stream.
  function TornPart(torn: seq<Byte>, j: nat, rest: seq<Byte>): seq<Byte>
    requires j <= 2 + |torn|
  {
    (BLANK_LINE + torn)[..j] + rest
  }

  lemma TornParts(torn: seq<Byte>, j: nat, rest: seq<Byte>)
    requires j <= 2 + |torn|
    ensures |EncodeFrame(torn)| == |LengthLine(|torn|)| + 2 + |torn|
    ensures EncodeFrame(torn)[..|LengthLine(|torn|)| + j] + rest == LengthBytes(|torn|) + TornPart(torn, j, rest)
  {
    FrameParts(torn);
    PrefixOfConcat(LengthBytes(|torn|), BLANK_LINE + torn, j);
    Regroup(LengthBytes(|torn|), (BLANK_LINE + torn)[..j], rest);
  }

  lemma PartInBlank(torn: seq<Byte>, rest: seq<Byte>)
    ensures TornPart(torn, 0, rest) == rest && TornPart(torn, 1, rest) == [13] + rest
  {
    assert (BLANK_LINE + torn)[..0] == [] && (BLANK_LINE + torn)[..1] == [13];
  }

  lemma PartInBody(torn: seq<Byte>, j: nat, rest: seq<Byte>)
    requires 2 <= j <= 2 + |torn|
    ensures TornPart(torn, j, rest) == BLANK_LINE + (torn[..j - 2] + rest)
  {
    PrefixOfConcat(BLANK_LINE, torn, j - 2);
    Regroup(BLANK_LINE, torn[..j - 2], rest);
  }

  // A stream that starts with a length line decodes as what is behind it.
  lemma BehindLine(classify: Classifier, n: nat, part: seq<Byte>, s: seq<Byte>, end: StreamEnd, d: Decoded, d': Decoded)
    requires Knows(classify, n) && s == LengthBytes(n) + part && d == DecodeFrom(classify, s, end, 0, None)
    requires d' == if n > MAX_BODY_BYTES then Error(InvalidData)
                   else DecodeFrom(classify, part, end, |LengthBytes(n)|, Some(n))
    ensures d == d'
  {
    ShortLine(classify, LengthBytes(n), part, end, 0, None, d);
  }

  lemma TornBehindLine(classify: Classifier, torn: seq<Byte>, k: nat, body: seq<Byte>, tail: seq<Byte>, end: StreamEnd,
                       j: nat)
    requires Knows(classify, |torn|) && Knows(classify, |body|)
    requires k == |LengthLine(|torn|)| + j <= |EncodeFrame(torn)|
    ensures DecodeFrom(classify, TornStream(torn, k, body, tail), end, 0, None) == AfterTear(torn, k, body, tail, end)
  {
    var s, frame := TornStream(torn, k, body, tail), EncodeFrame(body) + tail;
    assert j <= 2 + |torn| by { FrameParts(torn); }
    TornParts(torn, j, frame);
    if |torn| <= MAX_BODY_BYTES {
      PartDecoded(classify, torn, j, body, tail, end, |LengthLine(|torn|)|);
    }
    BehindLine(classify, |torn|, TornPart(torn, j, frame), s, end, DecodeFrom(classify, s, end, 0, None),
               AfterTear(torn, k, body, tail, end));
  }

  lemma PartDecoded(classify: Classifier, torn: seq<Byte>, j: nat, body: seq<Byte>, tail: seq<Byte>, end: StreamEnd,
                    line: nat)
    requires Knows(classify, |body|) && |torn| <= MAX_BODY_BYTES
    requires j <= 2 + |torn| && line == |LengthLine(|torn|)| <= 100
    ensures |EncodeFrame(torn)| == line + 2 + |torn|
    ensures DecodeFrom(classify, TornPart(torn, j, EncodeFrame(body) + tail), end, line, Some(|torn|))
         == AfterTear(torn, line + j, body, tail, end)
  {
    var n, frame := |torn|, EncodeFrame(body) + tail;
    FrameParts(torn);
    PartInBlank(torn, frame);
    if j == 0 {
      FrameBehind(classify, body, tail, end, line, Some(n));
    } else if j == 1 {
      TornInBlank(classify, n, body, tail, end, line);
    } else {
      var rest := torn[..j - 2] + frame;
      PartInBody(torn, j, frame);
      var d := DecodeFrom(classify, BLANK_LINE + rest, end, line, Some(n));
      ShortLine(classify, BLANK_LINE, rest, end, line, Some(n), d);
    }
  }

  // For every cut, every next frame and everything behind it.
  lemma TornDecoded(lossy: Lossy, torn: seq<Byte>, k: nat, body: seq<Byte>, tail: seq<Byte>, end: StreamEnd)
    requires ExactOnAscii(lossy) && |torn| <= USIZE_MAX && |body| <= USIZE_MAX
    requires 0 < k < |EncodeFrame(torn)|
    ensures Decode(lossy, TornStream(torn, k, body, tail), end) == AfterTear(torn, k, body, tail, end)
  {
    if k < |LengthLine(|torn|)| {
      TornInLine(lossy, torn, k, body, tail, end);
    } else {
      HeaderRulesKnow(lossy, |torn|);
      HeaderRulesKnow(lossy, |body|);
      TornBehindLine(HeaderRules(lossy), torn, k, body, tail, end, k - |LengthLine(|torn|)|);
    }
  }

  // The cuts behind which the next frame is read as itself.
  predicate Resyncs(torn: seq<Byte>, k: nat, body: seq<Byte>) {
    && |torn| <= MAX_BODY_BYTES && |body| <= MAX_BODY_BYTES
    && (k == |LengthLine(|torn|)| || (k == |LengthLine(|torn|)| + 1 && |torn| == |body|))
  }

  // The stream resyncs at the next frame if and only if the cut is just behind the
  // length line, or one byte later with bodies of equal length.
  lemma ResyncIff(lossy: Lossy, torn: seq<Byte>, k: nat, body: seq<Byte>, tail: seq<Byte>, end: StreamEnd)
    requires ExactOnAscii(lossy) && |torn| <= USIZE_MAX && |body| <= USIZE_MAX
    requires 0 < k < |EncodeFrame(torn)|
    ensures Decode(lossy, TornStream(torn, k, body, tail), end) == Frame(body, tail) <==> Resyncs(torn, k, body)
  {
    TornDecoded(lossy, torn, k, body, tail, end);
    var line := |LengthLine(|torn|)|;
    EqualLengths(body, tail, end, |torn|);
    if k > line + 1 {
      FrameParts(torn);
      NoRoom(torn[..k - line - 2], body, tail, end, |torn|);
    }
  }

  // A body that is taken with its own frame around it is longer than itself.
  lemma NoRoom(start: seq<Byte>, body: seq<Byte>, tail: seq<Byte>, end: StreamEnd, n: nat)
    ensures TakeBody(start + (EncodeFrame(body) + tail), end, n) != Frame(body, tail)
  {
    var s := start + (EncodeFrame(body) + tail);
    if n <= |s| && s[..n] == body { assert |s[n..]| == |s| - |body| > |tail|; }
  }
}
