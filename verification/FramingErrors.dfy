/** Which error the framing parser reports: a stream that ran out, or one that is wrong. */
module FramingErrors {
  import opened Bytes
  import opened Framing
  import opened FramingTheorems

  // What running out is reported as.
  function EndKind(end: StreamEnd): ErrorKind {
    match end
    case Eof => UnexpectedEof
    case Broken => Transport
  }

  // `s` is header lines within the caps, none of them blank or refused, then `rest`.
  ghost predicate Headers(classify: Classifier, s: seq<Byte>, end: StreamEnd, total: nat, lines: seq<seq<Byte>>,
                          rest: seq<Byte>)
  {
    && s == Flatten(lines) + rest && total + |Flatten(lines)| <= 65536
    && forall i :: 0 <= i < |lines| ==>
         && IsLine(lines[i], i == |lines| - 1 && rest == [] && end.Eof?)
         && (classify(lines[i]).ContentLength? || classify(lines[i]).Other?)
  }

  // The headers stop here: nothing is left, or on a broken stream part of a line.
  predicate NoMoreHeaders(rest: seq<Byte>, end: StreamEnd) {
    if end.Eof? then rest == [] else NEWLINE !in rest && |rest| <= 8192
  }

  // The blank line within the cap, then fewer bytes than announced.
  ghost predicate BodyShort(classify: Classifier, rest: seq<Byte>, end: StreamEnd, total: nat, len: Option<nat>) {
    exists blank, part :: BlankThenPart(classify, rest, end, total, len, blank, part)
  }

  predicate BlankThenPart(classify: Classifier, rest: seq<Byte>, end: StreamEnd, total: nat, len: Option<nat>,
                          blank: seq<Byte>, part: seq<Byte>)
  {
    && rest == blank + part && IsLine(blank, part == [] && end.Eof?) && classify(blank).EndOfHeaders?
    && total + |blank| <= 65536 && len.Some? && |part| < len.value
  }

  ghost predicate Stops(classify: Classifier, end: StreamEnd, total: nat, len: Option<nat>, lines: seq<seq<Byte>>,
                        rest: seq<Byte>)
  {
    || NoMoreHeaders(rest, end)
    || BodyShort(classify, rest, end, total + |Flatten(lines)|, LastLength(classify, lines, len))
  }

  // All is well as far as the stream goes, and it does not go far enough.
  ghost predicate RunsOut(classify: Classifier, s: seq<Byte>, end: StreamEnd, total: nat, len: Option<nat>) {
    exists lines, rest :: Headers(classify, s, end, total, lines, rest) && Stops(classify, end, total, len, lines, rest)
  }

  // One turn of the header loop, case by case.
  lemma TurnCases(classify: Classifier, s: seq<Byte>, end: StreamEnd, total: nat, len: Option<nat>, d: Decoded)
    requires d == DecodeFrom(classify, s, end, total, len)
    ensures var n := LineLen(s);
            if n > 8192 then d == Error(InvalidData)
            else if NEWLINE !in s && end.Broken? then d == Error(Transport)
            else if n == 0 then d == Error(UnexpectedEof)
            else if total + n > 65536 then d == Error(InvalidData)
            else match classify(s[..n])
                 case EndOfHeaders => d == if len.None? then Error(InvalidData) else TakeBody(s[n..], end, len.value)
                 case BadLength => d == Error(InvalidData)
                 case ContentLength(k) => d == DecodeFrom(classify, s[n..], end, total + n, Some(k))
                 case Other => d == DecodeFrom(classify, s[n..], end, total + n, len)
  {
  }

  lemma WholeLine(s: seq<Byte>)
    requires NEWLINE !in s
    ensures LineLen(s) == |s|
  {
    UnfinishedLine(s);
  }

  // A stream that runs out is reported as such.
  lemma {:induction false} OutIsReported(classify: Classifier, s: seq<Byte>, end: StreamEnd, total: nat,
                                         len: Option<nat>, lines: seq<seq<Byte>>, rest: seq<Byte>, d: Decoded)
    requires Headers(classify, s, end, total, lines, rest) && Stops(classify, end, total, len, lines, rest)
    requires d == DecodeFrom(classify, s, end, total, len)
    ensures d == Error(EndKind(end))
    decreases |lines|
  {
    if lines == [] {
      assert s == rest;
      StopIsReported(classify, s, end, total, len, d);
    } else {
      var tail, len' := Flatten(lines[1..]) + rest, NextLength(classify, lines[0], len);
      LineThenTail(classify, s, end, total, lines, rest);
      StopsBehind(classify, end, total, len, lines, rest);
      FirstHeaderRead(classify, lines[0], tail, end, total, len, d);
      OutIsReported(classify, tail, end, total + |lines[0]|, len', lines[1..], rest, d);
    }
  }

  // Where it stops is the same behind the first line.
  lemma StopsBehind(classify: Classifier, end: StreamEnd, total: nat, len: Option<nat>, lines: seq<seq<Byte>>,
                    rest: seq<Byte>)
    requires lines != []
    ensures Stops(classify, end, total, len, lines, rest)
       <==> Stops(classify, end, total + |lines[0]|, NextLength(classify, lines[0], len), lines[1..], rest)
  {
    assert |Flatten(lines)| == |lines[0]| + |Flatten(lines[1..])|;
    assert LastLength(classify, lines, len) == LastLength(classify, lines[1..], NextLength(classify, lines[0], len));
  }

  lemma FirstHeaderRead(classify: Classifier, line: seq<Byte>, tail: seq<Byte>, end: StreamEnd, total: nat,
                        len: Option<nat>, d: Decoded)
    requires IsLine(line, tail == [] && end.Eof?) && total + |line| <= 65536
    requires classify(line).ContentLength? || classify(line).Other?
    requires d == DecodeFrom(classify, line + tail, end, total, len)
    ensures d == DecodeFrom(classify, tail, end, total + |line|, NextLength(classify, line, len))
  {
    OneLine(classify, line, tail, end, total, len);
  }

  // The first line, and the others as headers of their own.
  lemma LineThenTail(classify: Classifier, s: seq<Byte>, end: StreamEnd, total: nat, lines: seq<seq<Byte>>,
                     rest: seq<Byte>)
    requires Headers(classify, s, end, total, lines, rest) && lines != []
    ensures var tail := Flatten(lines[1..]) + rest;
            && s == lines[0] + tail
            && IsLine(lines[0], tail == [] && end.Eof?)
            && |Flatten(lines)| == |lines[0]| + |Flatten(lines[1..])|
            && Headers(classify, tail, end, total + |lines[0]|, lines[1..], rest)
  {
    if |lines| > 1 {
      assert IsLine(lines[1], |lines| == 2 && rest == [] && end.Eof?);
      assert lines[1..][0] == lines[1] && |Flatten(lines[1..])| > 0;
    }
    Joined(lines[0], Flatten(lines[1..]), rest);
    assert IsLine(lines[0], |lines| == 1 && rest == [] && end.Eof?);
    assert forall i :: 0 <= i < |lines[1..]| ==> lines[1..][i] == lines[i + 1];
  }

  lemma Joined(a: seq<Byte>, b: seq<Byte>, c: seq<Byte>)
    ensures (a + b) + c == a + (b + c)
  {
  }

  lemma StopIsReported(classify: Classifier, s: seq<Byte>, end: StreamEnd, total: nat, len: Option<nat>, d: Decoded)
    requires NoMoreHeaders(s, end) || BodyShort(classify, s, end, total, len)
    requires d == DecodeFrom(classify, s, end, total, len)
    ensures d == Error(EndKind(end))
  {
    TurnCases(classify, s, end, total, len, d);
    if NoMoreHeaders(s, end) {
      WholeLine(s);
    } else {
      var blank, part :| BlankThenPart(classify, s, end, total, len, blank, part);
      FirstLineOf(blank, part, end);
    }
  }

  // What is reported so did run out.
  lemma {:induction false} ReportedIsOut(classify: Classifier, s: seq<Byte>, end: StreamEnd, total: nat,
                                         len: Option<nat>, d: Decoded)
    returns (lines: seq<seq<Byte>>, rest: seq<Byte>)
    requires d == DecodeFrom(classify, s, end, total, len) && d == Error(EndKind(end)) && total <= 65536
    ensures Headers(classify, s, end, total, lines, rest) && Stops(classify, end, total, len, lines, rest)
    decreases |s|
  {
    var n := LineLen(s);
    ReportedCases(classify, s, end, total, len, d);
    if NoMoreHeaders(s, end) || BodyShort(classify, s, end, total, len) {
      lines, rest := [], s;
      assert Flatten([]) + s == s;
    } else {
      var line, len' := s[..n], NextLength(classify, s[..n], len);
      var more;
      more, rest := ReportedIsOut(classify, s[n..], end, total + n, len', d);
      lines := [line] + more;
      LinePrepended(classify, s, line, end, total, more, rest);
      assert lines[0] == line && lines[1..] == more;
      StopsBehind(classify, end, total, len, lines, rest);
    }
  }

  // It stops here, or goes on behind the first line.
  lemma ReportedCases(classify: Classifier, s: seq<Byte>, end: StreamEnd, total: nat, len: Option<nat>, d: Decoded)
    requires d == DecodeFrom(classify, s, end, total, len) && d == Error(EndKind(end))
    ensures || NoMoreHeaders(s, end) || BodyShort(classify, s, end, total, len)
            || (var n := LineLen(s);
                && 0 < n && total + n <= 65536 && IsLine(s[..n], s[n..] == [] && end.Eof?)
                && (classify(s[..n]).ContentLength? || classify(s[..n]).Other?)
                && d == DecodeFrom(classify, s[n..], end, total + n, NextLength(classify, s[..n], len)))
  {
    var n := LineLen(s);
    TurnCases(classify, s, end, total, len, d);
    if NEWLINE !in s { WholeLine(s); }
    if n > 0 && (NEWLINE in s || end.Eof?) {
      FirstLineIsLine(s, end);
      if classify(s[..n]).EndOfHeaders? {
        assert s == s[..n] + s[n..];
        assert BlankThenPart(classify, s, end, total, len, s[..n], s[n..]);
      }
    }
  }

  lemma LinePrepended(classify: Classifier, s: seq<Byte>, line: seq<Byte>, end: StreamEnd, total: nat,
                      more: seq<seq<Byte>>, rest: seq<Byte>)
    requires line <= s && Headers(classify, s[|line|..], end, total + |line|, more, rest)
    requires IsLine(line, s[|line|..] == [] && end.Eof?)
    requires classify(line).ContentLength? || classify(line).Other?
    ensures Headers(classify, s, end, total, [line] + more, rest)
    ensures |Flatten([line] + more)| == |line| + |Flatten(more)|
  {
    var lines := [line] + more;
    assert lines[1..] == more;
    assert Flatten(lines) == line + Flatten(more);
    assert s == line + s[|line|..];
    if more != [] {
      assert IsLine(more[0], |more| == 1 && rest == [] && end.Eof?);
      assert Flatten(more) == more[0] + Flatten(more[1..]);
    }
    assert forall i :: 0 < i < |lines| ==> lines[i] == more[i - 1];
  }

  // Every error, exactly: the end of the stream is reported as such if and only if the
  // headers and the body are fine as far as they go; anything else is invalid data.
  lemma ErrorExact(lossy: Lossy, s: seq<Byte>, end: StreamEnd)
    ensures Decode(lossy, s, end) == Error(EndKind(end)) <==> RunsOut(HeaderRules(lossy), s, end, 0, None)
    ensures Decode(lossy, s, end).Error? && !RunsOut(HeaderRules(lossy), s, end, 0, None) ==>
              Decode(lossy, s, end) == Error(InvalidData)
  {
    var classify, d := HeaderRules(lossy), Decode(lossy, s, end);
    OnlyTwoKinds(classify, s, end, 0, None, d);
    if d == Error(EndKind(end)) {
      var lines, rest := ReportedIsOut(classify, s, end, 0, None, d);
    }
    forall lines, rest | Headers(classify, s, end, 0, lines, rest) && Stops(classify, end, 0, None, lines, rest)
      ensures d == Error(EndKind(end))
    {
      OutIsReported(classify, s, end, 0, None, lines, rest, d);
    }
  }

  lemma {:induction false} OnlyTwoKinds(classify: Classifier, s: seq<Byte>, end: StreamEnd, total: nat,
                                        len: Option<nat>, d: Decoded)
    requires d == DecodeFrom(classify, s, end, total, len)
    ensures d.Error? ==> d.kind == EndKind(end) || d.kind == InvalidData
    decreases |s|
  {
    TurnCases(classify, s, end, total, len, d);
    var n := LineLen(s);
    if 0 < n <= 8192 && (NEWLINE in s || end.Eof?) && total + n <= 65536 {
      match classify(s[..n]) {
        case ContentLength(k) => OnlyTwoKinds(classify, s[n..], end, total + n, Some(k), d);
        case Other => OnlyTwoKinds(classify, s[n..], end, total + n, len, d);
        case _ =>
      }
    }
  }
}
