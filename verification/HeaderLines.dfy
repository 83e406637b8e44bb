/**
 Header lines as text: which of them are ignored, which announce a length, and what a
 stream made of them decodes to, stated without the parser's own reading of a line.
 */
module HeaderLines {
  import opened Bytes
  import opened Decimal
  import opened Framing
  import opened FramingTheorems
  import opened TornFrames

  // ------------------------------------------------------------------ header text

  // Space, tab, line feed, vertical tab, form feed and carriage return.
  predicate AsciiWhite(c: char) {
    c as int == 32 || 9 <= c as int <= 13
  }

  predicate AllWhite(s: string) {
    forall i :: 0 <= i < |s| ==> AsciiWhite(s[i])
  }

  // One line of ASCII, without its newline; a carriage return may end it.
  predicate LineText(h: string) {
    IsAsciiText(h) && '\n' !in h && |h| < 8192
  }

  predicate Blank(h: string) {
    forall i :: 0 <= i < |h| ==> h[i] == '\r'
  }

  // Any header but a length: it has some text and does not start with `Content-Length:`.
  predicate OtherHeader(h: string) {
    LineText(h) && !Blank(h) && !("Content-Length:" <= h)
  }

  // The value announces `n`: digits, with or without a plus sign, between white space.
  ghost predicate Announces(value: string, n: nat) {
    exists before, plus, digits, after :: Reading(value, before, plus, digits, after) && Value(digits) == n
  }

  predicate Reading(value: string, before: string, plus: string, digits: string, after: string) {
    && value == before + (plus + digits) + after
    && AllWhite(before) && AllWhite(after) && (plus == "" || plus == "+")
    && digits != "" && AllDigits(digits)
  }

  // A `Content-Length:` header that announces `n`.
  ghost predicate LengthHeader(h: string, n: nat) {
    LineText(h) && "Content-Length:" <= h && Announces(h[15..], n)
  }

  // ------------------------------------------------------------------ trimming

  lemma WhiteIsWhitespace(c: char)
    requires c as int < 128
    ensures IsWhitespace(c) <==> AsciiWhite(c)
  {
  }

  lemma {:induction false} TrimStartWhite(white: string, s: string)
    requires AllWhite(white)
    ensures TrimStart(white + s) == TrimStart(s)
  {
    if white == "" {
      assert white + s == s;
    } else {
      WhiteIsWhitespace(white[0]);
      assert (white + s)[1..] == white[1..] + s;
      TrimStartWhite(white[1..], s);
    }
  }

  lemma {:induction false} TrimEndWhite(s: string, white: string)
    requires AllWhite(white)
    ensures Trim(s + white) == Trim(s)
  {
    if white == "" {
      assert s + white == s;
    } else {
      var last := white[|white| - 1];
      WhiteIsWhitespace(last);
      assert (s + white)[..|s + white| - 1] == s + white[..|white| - 1];
      TrimEndWhite(s, white[..|white| - 1]);
    }
  }

  // Text between white space is what trimming leaves.
  lemma TrimBetween(before: string, core: string, after: string)
    requires AllWhite(before) && AllWhite(after) && core != "" && IsAsciiText(core)
    requires !AsciiWhite(core[0]) && !AsciiWhite(core[|core| - 1])
    ensures Trim(before + core + after) == core
  {
    TrimEndWhite(before + core, after);
    var s := before + core;
    assert s[|s| - 1] == core[|core| - 1];
    WhiteIsWhitespace(core[|core| - 1]);
    assert Trim(s) == TrimStart(s);
    TrimStartWhite(before, core);
    WhiteIsWhitespace(core[0]);
  }

  lemma {:induction false} TrimStartSplit(s: string) returns (before: string)
    requires IsAsciiText(s)
    ensures AllWhite(before) && s == before + TrimStart(s)
  {
    before := "";
    if s != "" && IsWhitespace(s[0]) {
      WhiteIsWhitespace(s[0]);
      var rest := TrimStartSplit(s[1..]);
      before := [s[0]] + rest;
      assert s == [s[0]] + s[1..];
    }
  }

  lemma OneMoreBehind(before: string, core: string, after: string, c: char)
    ensures (before + core + after) + [c] == before + core + (after + [c])
  {
  }

  // What trimming takes away is white space on both sides.
  lemma {:induction false} TrimSplit(s: string) returns (before: string, after: string)
    requires IsAsciiText(s)
    ensures AllWhite(before) && AllWhite(after) && s == before + Trim(s) + after
  {
    if s != "" && IsWhitespace(s[|s| - 1]) {
      var init, last := s[..|s| - 1], s[|s| - 1];
      var rest;
      WhiteIsWhitespace(last);
      before, rest := TrimSplit(init);
      after := rest + [last];
      assert s == init + [last];
      OneMoreBehind(before, Trim(init), rest, last);
    } else {
      before := TrimStartSplit(s);
      after := "";
      assert s == before + Trim(s) + after;
    }
  }

  // Parsing the trimmed value finds exactly the number it announces.
  lemma ParseAnnounced(value: string, n: nat)
    requires IsAsciiText(value)
    ensures ParseUsize(Trim(value)) == Some(n) <==> n <= USIZE_MAX && Announces(value, n)
  {
    if ParseUsize(Trim(value)) == Some(n) {
      var before, after := TrimSplit(value);
      var t := Trim(value);
      if t[0] == '+' {
        assert t == "+" + t[1..];
        assert Reading(value, before, "+", t[1..], after);
      } else {
        assert t == "" + t;
        assert Reading(value, before, "", t, after);
      }
    }
    forall before, plus, digits, after | Reading(value, before, plus, digits, after)
      ensures ParseUsize(Trim(value)) == if Value(digits) <= USIZE_MAX then Some(Value(digits)) else None
    {
      ReadingParsed(value, before, plus, digits, after);
    }
  }

  lemma ReadingParsed(value: string, before: string, plus: string, digits: string, after: string)
    requires IsAsciiText(value) && Reading(value, before, plus, digits, after)
    ensures ParseUsize(Trim(value)) == if Value(digits) <= USIZE_MAX then Some(Value(digits)) else None
  {
    var core := plus + digits;
    assert IsDigit(digits[0]) && IsDigit(digits[|digits| - 1]);
    assert core[|core| - 1] == digits[|digits| - 1];
    assert forall i :: 0 <= i < |core| ==> core[i] == value[|before| + i];
    TrimBetween(before, core, after);
    if plus == "" { assert core == digits; } else { assert core[1..] == digits; }
  }

  // ------------------------------------------------------------------ one line

  // What the end of a line leaves: the text without carriage returns at its end.
  lemma {:induction false} TrimLineSplit(s: string) returns (cut: string)
    requires '\n' !in s
    ensures Blank(cut) && s == TrimLineEnd(s) + cut && (TrimLineEnd(s) == "" <==> Blank(s))
  {
    cut := "";
    if s != "" && s[|s| - 1] == '\r' {
      var init := s[..|s| - 1];
      cut := TrimLineSplit(init);
      cut := cut + "\r";
      assert s == init + "\r";
      assert Blank(init) <==> Blank(s) by {
        if Blank(init) { assert forall i :: 0 <= i < |s| ==> s[i] == if i < |init| then init[i] else '\r'; }
      }
    } else if s != "" {
      assert s[|s| - 1] in s;
      assert s[|s| - 1] != '\r';
    }
  }

  lemma TrimNewline(h: string)
    requires '\n' !in h
    ensures TrimLineEnd(h + "\n") == TrimLineEnd(h)
  {
    assert (h + "\n")[..|h|] == h;
  }

  // The end of the headers is a line of nothing but carriage returns.
  lemma BlankClass(h: string)
    requires '\n' !in h
    ensures Classify(h + "\n").EndOfHeaders? <==> Blank(h)
  {
    TrimNewline(h);
    var cut := TrimLineSplit(h);
  }

  lemma OtherClass(h: string)
    requires OtherHeader(h)
    ensures Classify(h + "\n") == Other
  {
    TrimNewline(h);
    var cut := TrimLineSplit(h);
    var t := TrimLineEnd(h);
    assert h == t + cut;
    assert CONTENT_LENGTH_PREFIX <= t ==> CONTENT_LENGTH_PREFIX <= h;
  }

  // A length header announces the number in it; with no number in it, or one above the
  // cap, it is refused.
  lemma LengthClass(value: string, n: nat)
    requires LineText("Content-Length:" + value)
    ensures var h := Classify("Content-Length:" + value + "\n");
            && (h.ContentLength? || h.BadLength?)
            && (h.ContentLength? && h.n == n <==> n <= 16777216 && Announces(value, n))
  {
    var line := "Content-Length:" + value;
    TrimNewline(line);
    var cut := TrimLineSplit(line);
    var t := TrimLineEnd(line);
    ColonStays(value, t, cut);
    var kept := value[..|value| - |cut|];
    assert t[15..] == kept;
    assert AllWhite(cut);
    TrimEndWhite(kept, cut);
    assert IsAsciiText(value) by {
      forall i | 0 <= i < |value| ensures value[i] as int < 128 { assert line[15 + i] == value[i]; }
    }
    ParseAnnounced(value, n);
  }

  // The carriage returns cut off are behind the colon.
  lemma ColonStays(value: string, t: string, cut: string)
    requires Blank(cut) && "Content-Length:" + value == t + cut
    ensures |cut| <= |value| && value == value[..|value| - |cut|] + cut
    ensures t == "Content-Length:" + value[..|value| - |cut|]
  {
    var line := "Content-Length:" + value;
    assert forall i :: |t| <= i < |line| ==> line[i] == cut[i - |t|] == '\r';
    assert line[14] == ':';
    assert t == line[..|t|] && cut == line[|t|..];
  }

  // ------------------------------------------------------------------ whole streams

  function LineBytes(h: string): seq<Byte>
    requires LineText(h)
  {
    AsciiBytes(h + "\n")
  }

  lemma LineFacts(lossy: Lossy, h: string)
    requires ExactOnAscii(lossy) && LineText(h)
    ensures |LineBytes(h)| == |h| + 1
    ensures forall ends :: IsLine(LineBytes(h), ends)
    ensures HeaderRules(lossy)(LineBytes(h)) == Classify(h + "\n")
  {
    var b := LineBytes(h);
    AsciiRoundTrip(h + "\n");
    forall i | 0 <= i < |h| ensures b[i] != NEWLINE {
      assert (h + "\n")[i] == h[i] && h[i] in h;
    }
  }

  function AllLines(hs: seq<string>): (lines: seq<seq<Byte>>)
    requires forall i :: 0 <= i < |hs| ==> LineText(hs[i])
    ensures |lines| == |hs| && forall i :: 0 <= i < |hs| ==> lines[i] == LineBytes(hs[i])
  {
    seq(|hs|, i requires 0 <= i < |hs| => LineBytes(hs[i]))
  }

  // A header that is ignored, or announces a length within the cap.
  ghost predicate GoodHeader(h: string) {
    OtherHeader(h) || exists n: nat :: n <= 16777216 && LengthHeader(h, n)
  }

  ghost predicate GoodHeaders(hs: seq<string>) {
    forall i :: 0 <= i < |hs| ==> LineText(hs[i]) && GoodHeader(hs[i])
  }

  // The length announced by the last length header.
  ghost predicate LastAnnounced(hs: seq<string>, n: nat) {
    hs != [] &&
    if OtherHeader(hs[|hs| - 1]) then LastAnnounced(hs[..|hs| - 1], n) else LengthHeader(hs[|hs| - 1], n)
  }

  lemma LengthHeaderClass(h: string, n: nat)
    requires LengthHeader(h, n) && n <= 16777216
    ensures Classify(h + "\n") == ContentLength(n)
  {
    assert h == "Content-Length:" + h[15..];
    LengthClass(h[15..], n);
  }

  // A line the parser goes on after.
  ghost predicate GoesOn(classify: Classifier, line: seq<Byte>) {
    (forall ends :: IsLine(line, ends)) && (classify(line).Other? || classify(line).ContentLength?)
  }

  lemma GoodHeaderGoesOn(lossy: Lossy, h: string)
    requires ExactOnAscii(lossy) && LineText(h) && GoodHeader(h)
    ensures GoesOn(HeaderRules(lossy), LineBytes(h))
    ensures OtherHeader(h) ==> HeaderRules(lossy)(LineBytes(h)) == Other
  {
    LineFacts(lossy, h);
    if OtherHeader(h) {
      OtherClass(h);
    } else {
      var n: nat :| n <= 16777216 && LengthHeader(h, n);
      LengthHeaderClass(h, n);
    }
  }

  lemma AllGoOn(lossy: Lossy, hs: seq<string>)
    requires ExactOnAscii(lossy) && GoodHeaders(hs)
    ensures forall i :: 0 <= i < |hs| ==> GoesOn(HeaderRules(lossy), AllLines(hs)[i])
  {
    forall i | 0 <= i < |hs| ensures GoesOn(HeaderRules(lossy), AllLines(hs)[i]) {
      GoodHeaderGoesOn(lossy, hs[i]);
    }
  }

  lemma FlattenFirst(lines: seq<seq<Byte>>, rest: seq<Byte>)
    requires lines != []
    ensures Flatten(lines) + rest == lines[0] + (Flatten(lines[1..]) + rest)
    ensures |Flatten(lines)| == |lines[0]| + |Flatten(lines[1..])|
  {
    Regroup(lines[0], Flatten(lines[1..]), rest);
  }

  lemma ReadOne(classify: Classifier, line: seq<Byte>, tail: seq<Byte>, end: StreamEnd, total: nat, len: Option<nat>,
                d: Decoded)
    requires GoesOn(classify, line) && total + |line| <= MAX_HEADER_TOTAL_BYTES
    requires d == DecodeFrom(classify, line + tail, end, total, len)
    ensures d == DecodeFrom(classify, tail, end, total + |line|, NextLength(classify, line, len))
  {
    assert IsLine(line, tail == [] && end.Eof?);
    OneLine(classify, line, tail, end, total, len);
  }

  // Such lines are read one by one, within the cap.
  lemma {:induction false} LinesRead(classify: Classifier, lines: seq<seq<Byte>>, rest: seq<Byte>, end: StreamEnd,
                                     total: nat, len: Option<nat>, d: Decoded)
    requires forall i :: 0 <= i < |lines| ==> GoesOn(classify, lines[i])
    requires total + |Flatten(lines)| <= MAX_HEADER_TOTAL_BYTES
    requires d == DecodeFrom(classify, Flatten(lines) + rest, end, total, len)
    ensures d == DecodeFrom(classify, rest, end, total + |Flatten(lines)|, LastLength(classify, lines, len))
    decreases |lines|
  {
    if lines == [] {
      assert Flatten(lines) + rest == rest;
    } else {
      var line, tail := lines[0], Flatten(lines[1..]) + rest;
      FlattenFirst(lines, rest);
      ReadOne(classify, line, tail, end, total, len, d);
      LinesRead(classify, lines[1..], rest, end, total + |line|, NextLength(classify, line, len), d);
    }
  }

  lemma {:induction false} LastLengthSnoc(classify: Classifier, lines: seq<seq<Byte>>, line: seq<Byte>,
                                          len: Option<nat>)
    ensures LastLength(classify, lines + [line], len) == NextLength(classify, line, LastLength(classify, lines, len))
    decreases |lines|
  {
    if lines == [] {
      assert [line][1..] == [] && lines + [line] == [line];
    } else {
      LastLengthSnoc(classify, lines[1..], line, NextLength(classify, lines[0], len));
      assert (lines + [line])[1..] == lines[1..] + [line];
    }
  }

  // The last length header is the one the parser goes by.
  lemma {:induction false} LastWins(lossy: Lossy, hs: seq<string>, n: nat)
    requires ExactOnAscii(lossy) && GoodHeaders(hs) && LastAnnounced(hs, n) && n <= 16777216
    ensures LastLength(HeaderRules(lossy), AllLines(hs), None) == Some(n)
    decreases |hs|
  {
    var init, h := hs[..|hs| - 1], hs[|hs| - 1];
    assert AllLines(hs) == AllLines(init) + [LineBytes(h)];
    LastLengthSnoc(HeaderRules(lossy), AllLines(init), LineBytes(h), None);
    if OtherHeader(h) {
      GoodHeaderGoesOn(lossy, h);
      LastWins(lossy, init, n);
    } else {
      LineFacts(lossy, h);
      LengthHeaderClass(h, n);
    }
  }

  // Any headers in any order, then a blank line: the frame is the announced number of
  // bytes behind it. Headers other than lengths make no difference, and of several
  // lengths the last counts.
  lemma HeadersDecode(lossy: Lossy, hs: seq<string>, blank: string, body: seq<Byte>, tail: seq<Byte>, end: StreamEnd)
    requires ExactOnAscii(lossy) && GoodHeaders(hs) && LineText(blank) && Blank(blank)
    requires |Flatten(AllLines(hs))| + |LineBytes(blank)| <= 65536
    requires |body| <= 16777216 && LastAnnounced(hs, |body|)
    ensures Decode(lossy, Flatten(AllLines(hs)) + (LineBytes(blank) + (body + tail)), end) == Frame(body, tail)
  {
    var lines := AllLines(hs);
    AllGoOn(lossy, hs);
    var rest := LineBytes(blank) + (body + tail);
    LinesRead(HeaderRules(lossy), lines, rest, end, 0, None, Decode(lossy, Flatten(lines) + rest, end));
    LastWins(lossy, hs, |body|);
    LineFacts(lossy, blank);
    BlankClass(blank);
    BlankLineDecoded(HeaderRules(lossy), LineBytes(blank), end, |Flatten(lines)|, body, tail);
  }

  // A length header without a number within the cap is refused, whatever follows.
  lemma BadHeaderRefused(lossy: Lossy, hs: seq<string>, h: string, rest: seq<Byte>, end: StreamEnd)
    requires ExactOnAscii(lossy) && GoodHeaders(hs) && |Flatten(AllLines(hs))| <= 65536
    requires LineText(h) && "Content-Length:" <= h && !GoodHeader(h)
    ensures Decode(lossy, Flatten(AllLines(hs)) + (LineBytes(h) + rest), end) == Error(InvalidData)
  {
    AllGoOn(lossy, hs);
    BadClass(h);
    LineFacts(lossy, h);
    RefusedAfter(HeaderRules(lossy), AllLines(hs), LineBytes(h), rest, end,
                 Decode(lossy, Flatten(AllLines(hs)) + (LineBytes(h) + rest), end));
  }

  lemma RefusedAfter(classify: Classifier, lines: seq<seq<Byte>>, line: seq<Byte>, rest: seq<Byte>, end: StreamEnd,
                     d: Decoded)
    requires (forall i :: 0 <= i < |lines| ==> GoesOn(classify, lines[i])) && |Flatten(lines)| <= MAX_HEADER_TOTAL_BYTES
    requires (forall ends :: IsLine(line, ends)) && classify(line).BadLength?
    requires d == DecodeFrom(classify, Flatten(lines) + (line + rest), end, 0, None)
    ensures d == Error(InvalidData)
  {
    LinesRead(classify, lines, line + rest, end, 0, None, d);
    assert IsLine(line, false);
    LineRefused(classify, line, rest, end, |Flatten(lines)|, LastLength(classify, lines, None));
  }

  lemma BadClass(h: string)
    requires LineText(h) && "Content-Length:" <= h && !GoodHeader(h)
    ensures Classify(h + "\n") == BadLength
  {
    assert h == "Content-Length:" + h[15..];
    var c := Classify(h + "\n");
    LengthClass(h[15..], if c.ContentLength? then c.n else 0);
    assert c.ContentLength? ==> LengthHeader(h, c.n);
  }

  lemma TwoEnds(text: string, eol: string)
    ensures (text + eol) + eol == text + (eol + eol)
  {
  }

  // The bytes of a printed frame.
  lemma FrameText(body: seq<Byte>)
    ensures IsAsciiText("Content-Length: " + Print(|body|) + "\r\n\r\n")
    ensures EncodeFrame(body) == AsciiBytes("Content-Length: " + Print(|body|) + "\r\n\r\n") + body
  {
    var text := "Content-Length: " + Print(|body|);
    AsciiConcat(LengthLine(|body|), "\r\n");
    assert CONTENT_LENGTH_PREFIX + " " == "Content-Length: ";
    TwoEnds(text, "\r\n");
    assert "\r\n" + "\r\n" == "\r\n\r\n";
  }
}
