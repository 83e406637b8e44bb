/**
 What the framing parser accepts, stated without the parser, and the round trip
 through the printer.
 */
module FramingTheorems {
  import opened Bytes
  import opened Decimal
  import opened Framing

  // ------------------------------------------------- a parser-free description

  // The length announced by the last Content-Length line, or `len` if there is none.
  function LastLength(classify: Classifier, lines: seq<seq<Byte>>, len: Option<nat>): Option<nat> {
    if lines == [] then len
    else
      var first := classify(lines[0]);
      LastLength(classify, lines[1..], if first.ContentLength? then Some(first.n) else len)
  }

  // One line within the line cap, with its newline at the end and nowhere else. Only
  // a line that ends the stream may lack it.
  predicate IsLine(line: seq<Byte>, endsStream: bool) {
    && 0 < |line| <= MAX_HEADER_LINE_BYTES
    && NEWLINE !in line[..|line| - 1]
    && (line[|line| - 1] == NEWLINE || endsStream)
  }

  // `s` is header lines, of which exactly the last is blank, then `body`, then `rest`.
  ghost predicate IsFrame(classify: Classifier, s: seq<Byte>, end: StreamEnd, total: nat, len: Option<nat>,
                          lines: seq<seq<Byte>>, body: seq<Byte>, rest: seq<Byte>)
  {
    && lines != []
    && s == Flatten(lines) + (body + rest)
    && total + |Flatten(lines)| <= MAX_HEADER_TOTAL_BYTES
    && (forall i :: 0 <= i < |lines| ==>
          IsLine(lines[i], i == |lines| - 1 && body + rest == [] && end.Eof?))
    && (forall i :: 0 <= i < |lines| - 1 ==> classify(lines[i]).ContentLength? || classify(lines[i]).Other?)
    && classify(lines[|lines| - 1]).EndOfHeaders?
    && LastLength(classify, lines, len) == Some(|body|)
  }

  lemma FirstLineOf(line: seq<Byte>, tail: seq<Byte>, end: StreamEnd)
    requires IsLine(line, tail == [] && end.Eof?)
    ensures LineLen(line + tail) == |line|
    ensures Terminated(line + tail) || end.Eof?
    ensures (line + tail)[..|line|] == line && (line + tail)[|line|..] == tail
  {
    var s := line + tail;
    if line[|line| - 1] == NEWLINE {
      assert s[..|line| - 1] == line[..|line| - 1];
      LineLenIs(s, |line|);
    } else {
      LineLenFinds(s);
      assert s == line && line == line[..|line| - 1] + [line[|line| - 1]];
      assert NEWLINE !in s;
    }
  }

  function NextLength(classify: Classifier, line: seq<Byte>, len: Option<nat>): Option<nat> {
    if classify(line).ContentLength? then Some(classify(line).n) else len
  }

  // One turn of the header loop.
  lemma OneLine(classify: Classifier, line: seq<Byte>, tail: seq<Byte>, end: StreamEnd, total: nat, len: Option<nat>)
    requires IsLine(line, tail == [] && end.Eof?)
    requires total + |line| <= MAX_HEADER_TOTAL_BYTES
    requires classify(line).EndOfHeaders? ==> len.Some?
    requires !classify(line).BadLength?
    ensures DecodeFrom(classify, line + tail, end, total, len)
         == if classify(line).EndOfHeaders? then TakeBody(tail, end, len.value)
            else DecodeFrom(classify, tail, end, total + |line|, NextLength(classify, line, len))
  {
    FirstLineOf(line, tail, end);
  }

  // A described frame without its first line is a described frame.
  lemma WithoutFirstLine(classify: Classifier, s: seq<Byte>, end: StreamEnd, total: nat, len: Option<nat>,
                         lines: seq<seq<Byte>>, body: seq<Byte>, rest: seq<Byte>)
    requires IsFrame(classify, s, end, total, len, lines, body, rest) && |lines| > 1
    ensures lines[0] <= s && s[|lines[0]|..] != []
    ensures IsFrame(classify, s[|lines[0]|..], end, total + |lines[0]|, NextLength(classify, lines[0], len),
                    lines[1..], body, rest)
  {
    var line, tail := lines[0], Flatten(lines[1..]) + (body + rest);
    assert s == line + tail;
    assert s[|line|..] == tail;
    assert Flatten(lines[1..]) == lines[1..][0] + Flatten(lines[1..][1..]);
  }

  // The blank line ends the header; the body follows.
  lemma BlankLineDecoded(classify: Classifier, line: seq<Byte>, end: StreamEnd, total: nat,
                         body: seq<Byte>, rest: seq<Byte>)
    requires IsLine(line, body + rest == [] && end.Eof?)
    requires total + |line| <= MAX_HEADER_TOTAL_BYTES && classify(line).EndOfHeaders?
    ensures DecodeFrom(classify, line + (body + rest), end, total, Some(|body|)) == Frame(body, rest)
  {
    var tail := body + rest;
    assert tail[..|body|] == body && tail[|body|..] == rest;
    OneLine(classify, line, tail, end, total, Some(|body|));
  }

  // The decoding of a described frame goes on after its first line.
  lemma FirstLineDecoded(classify: Classifier, s: seq<Byte>, end: StreamEnd, total: nat, len: Option<nat>,
                         lines: seq<seq<Byte>>, body: seq<Byte>, rest: seq<Byte>)
    requires IsFrame(classify, s, end, total, len, lines, body, rest) && |lines| > 1 && lines[0] <= s
    ensures DecodeFrom(classify, s, end, total, len)
         == DecodeFrom(classify, s[|lines[0]|..], end, total + |lines[0]|, NextLength(classify, lines[0], len))
  {
    var line := lines[0];
    var tail := s[|line|..];
    assert s == line + tail;
    assert IsLine(line, |lines| == 1 && body + rest == [] && end.Eof?);
    assert Flatten(lines) == line + Flatten(lines[1..]);
    OneLine(classify, line, tail, end, total, len);
  }

  lemma LastLineDecoded(classify: Classifier, s: seq<Byte>, end: StreamEnd, total: nat, len: Option<nat>,
                        lines: seq<seq<Byte>>, body: seq<Byte>, rest: seq<Byte>)
    requires IsFrame(classify, s, end, total, len, lines, body, rest) && |lines| == 1
    ensures DecodeFrom(classify, s, end, total, len) == Frame(body, rest)
  {
    var line := lines[0];
    assert IsLine(line, body + rest == [] && end.Eof?);
    assert Flatten(lines) == line + Flatten(lines[1..]);
    assert s == line + (body + rest);
    assert LastLength(classify, lines, len) == LastLength(classify, lines[1..], len) == len;
    BlankLineDecoded(classify, line, end, total, body, rest);
  }

  // Every described frame is decoded, to that body and that rest.
  lemma {:induction false} FrameIsDecoded(classify: Classifier, s: seq<Byte>, end: StreamEnd, total: nat,
                                          len: Option<nat>, lines: seq<seq<Byte>>, body: seq<Byte>,
                                          rest: seq<Byte>, d: Decoded)
    requires IsFrame(classify, s, end, total, len, lines, body, rest)
    requires d == DecodeFrom(classify, s, end, total, len)
    ensures d == Frame(body, rest)
    decreases |lines|
  {
    if |lines| == 1 {
      LastLineDecoded(classify, s, end, total, len, lines, body, rest);
    } else {
      WithoutFirstLine(classify, s, end, total, len, lines, body, rest);
      FirstLineDecoded(classify, s, end, total, len, lines, body, rest);
      FrameIsDecoded(classify, s[|lines[0]|..], end, total + |lines[0]|, NextLength(classify, lines[0], len),
                     lines[1..], body, rest, d);
    }
  }

  // One turn of the header loop, backwards: how a successful decoding starts.
  lemma OneLineBack(classify: Classifier, s: seq<Byte>, end: StreamEnd, total: nat, len: Option<nat>, d: Decoded)
    requires d == DecodeFrom(classify, s, end, total, len) && d.Frame?
    ensures var n := LineLen(s);
            && 0 < n <= MAX_HEADER_LINE_BYTES && total + n <= MAX_HEADER_TOTAL_BYTES
            && (Terminated(s) || end.Eof?)
            && !classify(s[..n]).BadLength?
            && (if classify(s[..n]).EndOfHeaders? then len.Some? && d == TakeBody(s[n..], end, len.value)
                else d == DecodeFrom(classify, s[n..], end, total + n, NextLength(classify, s[..n], len)))
  {
  }

  lemma BlankLineFrame(classify: Classifier, line: seq<Byte>, tail: seq<Byte>, end: StreamEnd, total: nat, len: nat)
    requires IsLine(line, tail == [] && end.Eof?) && classify(line).EndOfHeaders?
    requires total + |line| <= MAX_HEADER_TOTAL_BYTES && len <= |tail|
    ensures IsFrame(classify, line + tail, end, total, Some(len), [line], tail[..len], tail[len..])
  {
    assert [line][1..] == [];
    assert Flatten([line]) == line + Flatten([line][1..]) == line;
    assert tail == tail[..len] + tail[len..];
    assert LastLength(classify, [line], Some(len)) == LastLength(classify, [line][1..], Some(len));
  }

  // Whatever is decoded is a described frame: the witness is the lines read.
  lemma {:induction false} DecodedIsFrame(classify: Classifier, s: seq<Byte>, end: StreamEnd, total: nat,
                                          len: Option<nat>, d: Decoded)
    returns (lines: seq<seq<Byte>>)
    requires d == DecodeFrom(classify, s, end, total, len) && d.Frame?
    ensures IsFrame(classify, s, end, total, len, lines, d.body, d.rest)
    decreases |s|
  {
    var n := LineLen(s);
    var line := s[..n];
    OneLineBack(classify, s, end, total, len, d);
    FirstLineIsLine(s, end);
    if classify(line).EndOfHeaders? {
      lines := [line];
      assert s == line + s[n..];
      BlankLineFrame(classify, line, s[n..], end, total, len.value);
    } else {
      var rest := DecodedIsFrame(classify, s[n..], end, total + n, NextLength(classify, line, len), d);
      lines := WithFirstLine(classify, line, rest, s, end, total, len, d.body, d.rest);
    }
  }

  lemma FirstLineIsLine(s: seq<Byte>, end: StreamEnd)
    requires 0 < LineLen(s) <= MAX_HEADER_LINE_BYTES
    requires Terminated(s) || end.Eof?
    ensures IsLine(s[..LineLen(s)], s[LineLen(s)..] == [] && end.Eof?)
  {
    var n := LineLen(s);
    LineLenFinds(s);
    assert s[..n][..n - 1] == s[..n - 1];
    assert s[..n] == s[..n - 1] + [s[n - 1]];
    assert n == |s| ==> s == s[..n];
  }

  lemma WithFirstLine(classify: Classifier, line: seq<Byte>, tailLines: seq<seq<Byte>>, s: seq<Byte>, end: StreamEnd,
             total: nat, len: Option<nat>, body: seq<Byte>, rest: seq<Byte>)
    returns (lines: seq<seq<Byte>>)
    requires line <= s && IsLine(line, s[|line|..] == [] && end.Eof?)
    requires classify(line).ContentLength? || classify(line).Other?
    requires IsFrame(classify, s[|line|..], end, total + |line|, NextLength(classify, line, len), tailLines, body, rest)
    ensures IsFrame(classify, s, end, total, len, lines, body, rest)
  {
    lines := [line] + tailLines;
    assert lines[1..] == tailLines;
    assert Flatten(lines) == line + Flatten(tailLines);
    assert s == line + s[|line|..];
    assert Flatten(tailLines) == tailLines[0] + Flatten(tailLines[1..]);
    assert forall i :: 0 < i < |lines| ==> lines[i] == tailLines[i - 1];
  }

  // Exactness of the parser: it returns a body and a rest if and only if the stream
  // is header lines within the caps, a blank line, that body and that rest, where
  // the last Content-Length line announces the body.
  lemma DecodeExact(lossy: Lossy, s: seq<Byte>, end: StreamEnd, body: seq<Byte>, rest: seq<Byte>)
    ensures Decode(lossy, s, end) == Frame(body, rest)
       <==> exists lines :: IsFrame(HeaderRules(lossy), s, end, 0, None, lines, body, rest)
  {
    var classify := HeaderRules(lossy);
    if Decode(lossy, s, end) == Frame(body, rest) {
      var lines := DecodedIsFrame(classify, s, end, 0, None, Decode(lossy, s, end));
    }
    forall lines | IsFrame(classify, s, end, 0, None, lines, body, rest)
      ensures Decode(lossy, s, end) == Frame(body, rest)
    {
      FrameIsDecoded(classify, s, end, 0, None, lines, body, rest, Decode(lossy, s, end));
    }
  }

  // ------------------------------------------------------------- the printer

  function LengthLine(n: nat): (s: string)
    ensures IsAsciiText(s)
  {
    CONTENT_LENGTH_PREFIX + " " + Print(n) + "\r\n"
  }

  // The bytes `encode_frame` writes.
  function EncodeFrame(body: seq<Byte>): (s: seq<Byte>)
    ensures |s| > |body|
  {
    AsciiBytes(LengthLine(|body|)) + AsciiBytes("\r\n") + body
  }

  lemma TrimOfDigits(d: string)
    requires d != [] && AllDigits(d)
    ensures Trim(" " + d) == d
  {
    assert IsDigit(d[|d| - 1]) && IsDigit(d[0]);
    assert (" " + d)[1..] == d;
    assert TrimStart(d) == d;
  }

  lemma LengthLineClass(n: nat)
    ensures Classify(LengthLine(n)) == if n <= MAX_BODY_BYTES then ContentLength(n) else BadLength
  {
    var s := LengthLine(n);
    var t := CONTENT_LENGTH_PREFIX + " " + Print(n);
    assert s[..|s| - 1][..|s| - 2] == t;
    assert IsDigit(t[|t| - 1]);
    assert TrimLineEnd(s) == TrimLineEnd(s[..|s| - 1]) == TrimLineEnd(t) == t;
    assert t[|CONTENT_LENGTH_PREFIX|..] == " " + Print(n);
    TrimOfDigits(Print(n));
    ParseOfPrint(n);
  }

  // The printed Content-Length line as raw bytes: one line, and what it means.
  lemma LengthLineBytes(lossy: Lossy, n: nat)
    requires ExactOnAscii(lossy)
    ensures var line := AsciiBytes(LengthLine(n));
            && 0 < |line| && NEWLINE !in line[..|line| - 1] && line[|line| - 1] == NEWLINE
            && (n <= USIZE_MAX ==> |line| <= 100)
            && HeaderRules(lossy)(line) == (if n <= MAX_BODY_BYTES then ContentLength(n) else BadLength)
  {
    var s := LengthLine(n);
    var line := AsciiBytes(s);
    AsciiRoundTrip(s);
    LengthLineClass(n);
    var digits := Print(n);
    assert forall i :: 0 <= i < |digits| ==> IsDigit(digits[i]);
    assert forall i :: 0 <= i < |line| - 1 ==> line[i] != NEWLINE by {
      forall i | 0 <= i < |line| - 1
        ensures line[i] != NEWLINE
      {
        if 16 <= i < 16 + |digits| { assert s[i] == digits[i - 16]; }
      }
    }
    if n <= USIZE_MAX {
      assert Pow10(20) == 100_000_000_000_000_000_000 by {
        assert Pow10(4) == 10_000;
        assert Pow10(8) == 100_000_000;
        assert Pow10(12) == 1_000_000_000_000;
        assert Pow10(16) == 10_000_000_000_000_000;
      }
      PrintLength(n, 20);
    }
  }

  lemma BlankLineBytes(lossy: Lossy)
    requires ExactOnAscii(lossy)
    ensures HeaderRules(lossy)(AsciiBytes("\r\n")) == EndOfHeaders
    ensures AsciiBytes("\r\n") == [13, 10]
  {
    AsciiRoundTrip("\r\n");
    assert "\r\n"[..1] == "\r" && "\r"[..0] == "";
    assert TrimLineEnd("\r\n") == TrimLineEnd("\r") == "";
  }

  // An announced body above the cap is refused at its own line.
  lemma LineRefused(classify: Classifier, line: seq<Byte>, tail: seq<Byte>, end: StreamEnd, total: nat,
                    len: Option<nat>)
    requires line != [] && NEWLINE !in line[..|line| - 1] && line[|line| - 1] == NEWLINE
    requires classify(line).BadLength?
    ensures DecodeFrom(classify, line + tail, end, total, len) == Error(InvalidData)
  {
    var s := line + tail;
    assert s[..|line| - 1] == line[..|line| - 1] && s[..|line|] == line;
    LineLenIs(s, |line|);
  }

  // A printed frame within the cap is a described frame.
  lemma PrintedIsFrame(lossy: Lossy, body: seq<Byte>, tail: seq<Byte>, end: StreamEnd) returns (lines: seq<seq<Byte>>)
    requires ExactOnAscii(lossy) && |body| <= MAX_BODY_BYTES
    ensures IsFrame(HeaderRules(lossy), EncodeFrame(body) + tail, end, 0, None, lines, body, tail)
  {
    var classify := HeaderRules(lossy);
    var line, blank := AsciiBytes(LengthLine(|body|)), AsciiBytes("\r\n");
    LengthLineBytes(lossy, |body|);
    BlankLineBytes(lossy);
    lines := [line, blank];
    assert lines[1..] == [blank] && lines[1..][1..] == [];
    assert Flatten(lines[1..]) == blank + Flatten(lines[1..][1..]) == blank;
    assert EncodeFrame(body) + tail == Flatten(lines) + (body + tail);
    assert LastLength(classify, lines, None) == LastLength(classify, lines[1..], Some(|body|))
        == LastLength(classify, lines[1..][1..], Some(|body|)) == Some(|body|);
  }

  // Round trip, and its exact limit: a printed frame is decoded back, leaving what
  // follows untouched, if and only if its body is within the cap.
  lemma RoundTrip(lossy: Lossy, body: seq<Byte>, tail: seq<Byte>, end: StreamEnd)
    requires ExactOnAscii(lossy)
    ensures Decode(lossy, EncodeFrame(body) + tail, end)
         == if |body| <= MAX_BODY_BYTES then Frame(body, tail) else Error(InvalidData)
  {
    var s := EncodeFrame(body) + tail;
    if |body| <= MAX_BODY_BYTES {
      var lines := PrintedIsFrame(lossy, body, tail, end);
      FrameIsDecoded(HeaderRules(lossy), s, end, 0, None, lines, body, tail, Decode(lossy, s, end));
    } else {
      LengthLineBytes(lossy, |body|);
      var line, rest := AsciiBytes(LengthLine(|body|)), AsciiBytes("\r\n") + body + tail;
      assert s == line + rest;
      LineRefused(HeaderRules(lossy), line, rest, end, 0, None);
    }
  }

  // ------------------------------------------------------ many frames in a row

  // The images of `xs` under `f`, one after the other.
  function Concat(f: seq<Byte> -> seq<Byte>, xs: seq<seq<Byte>>): seq<Byte> {
    if xs == [] then [] else f(xs[0]) + Concat(f, xs[1..])
  }

  lemma {:induction false} ConcatAppend(f: seq<Byte> -> seq<Byte>, xs: seq<seq<Byte>>, x: seq<Byte>)
    ensures Concat(f, xs + [x]) == Concat(f, xs) + f(x)
  {
    if xs == [] {
      assert xs + [x] == [x] && [x][1..] == [];
    } else {
      ConcatAppend(f, xs[1..], x);
      assert (xs + [x])[1..] == xs[1..] + [x];
    }
  }

  function EncodeAll(bodies: seq<seq<Byte>>): seq<Byte> {
    Concat(EncodeFrame, bodies)
  }

  // `k` successive decodings of one stream: the bodies and the bytes left, if all succeed.
  function DecodeMany(lossy: Lossy, s: seq<Byte>, end: StreamEnd, k: nat): Option<(seq<seq<Byte>>, seq<Byte>)>
    decreases k
  {
    if k == 0 then Some(([], s))
    else
      match Decode(lossy, s, end)
      case Error(_) => None
      case Frame(body, rest) =>
        match DecodeMany(lossy, rest, end, k - 1)
        case None => None
        case Some((bodies, left)) => Some(([body] + bodies, left))
  }

  lemma {:induction false} RoundTripMany(lossy: Lossy, bodies: seq<seq<Byte>>, tail: seq<Byte>, end: StreamEnd)
    requires ExactOnAscii(lossy)
    requires forall i :: 0 <= i < |bodies| ==> |bodies[i]| <= MAX_BODY_BYTES
    ensures DecodeMany(lossy, EncodeAll(bodies) + tail, end, |bodies|) == Some((bodies, tail))
  {
    if bodies == [] {
      assert EncodeAll(bodies) + tail == tail;
    } else {
      var rest := EncodeAll(bodies[1..]) + tail;
      assert EncodeAll(bodies) + tail == EncodeFrame(bodies[0]) + rest;
      RoundTrip(lossy, bodies[0], rest, end);
      RoundTripMany(lossy, bodies[1..], tail, end);
      assert bodies == [bodies[0]] + bodies[1..];
    }
  }
}
