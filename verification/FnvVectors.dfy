/**
 The published values of FNV-1a, computed line by line. A byte meets only the low
 eight bits of a state, so each line needs the exclusive or of two octets and one
 multiplication.
 */
module FnvVectors {
  import opened Bytes
  import opened Fnv

  // Binary digits written behind a number, highest first.
  function Binary(x: nat, digits: seq<nat>): nat
    decreases |digits|
  {
    if digits == [] then x else Binary(2 * x + digits[0], digits[1..])
  }

  ghost predicate IsBinary(digits: seq<nat>) {
    forall k :: 0 <= k < |digits| ==> digits[k] < 2
  }

  // `c` holds the digits in which `a` and `b` differ.
  ghost predicate Differ(a: seq<nat>, b: seq<nat>, c: seq<nat>) {
    && |a| == |b| == |c| && IsBinary(a) && IsBinary(b)
    && forall k :: 0 <= k < |c| ==> c[k] == (a[k] + b[k]) % 2
  }

  lemma {:induction false} XorZero(a: nat)
    ensures Xor(a, 0) == a
  {
    if a != 0 { XorZero(a / 2); }
  }

  lemma Halved(x: nat, p: nat)
    requires p < 2
    ensures (2 * x + p) / 2 == x && (2 * x + p) % 2 == p
  {
  }

  lemma XorHalves(a: nat, b: nat, x: nat, y: nat, p: nat, q: nat)
    requires a / 2 == x && b / 2 == y && a % 2 == p && b % 2 == q
    ensures Xor(a, b) == 2 * Xor(x, y) + (p + q) % 2
  {
  }

  lemma XorPush(x: nat, y: nat, p: nat, q: nat)
    requires p < 2 && q < 2
    ensures Xor(2 * x + p, 2 * y + q) == 2 * Xor(x, y) + (p + q) % 2
  {
    Halved(x, p);
    Halved(y, q);
    XorHalves(2 * x + p, 2 * y + q, x, y, p, q);
  }

  lemma BinaryStep(x: nat, d: seq<nat>)
    requires d != []
    ensures Binary(x, d) == Binary(2 * x + d[0], d[1..])
  {
  }

  lemma {:induction false} XorBinary(x: nat, y: nat, z: nat, a: seq<nat>, b: seq<nat>, c: seq<nat>)
    requires Differ(a, b, c) && Xor(x, y) == z
    ensures Xor(Binary(x, a), Binary(y, b)) == Binary(z, c)
    decreases |a|
  {
    if a != [] {
      var x', y', z' := 2 * x + a[0], 2 * y + b[0], 2 * z + c[0];
      assert Xor(x', y') == z' by { XorPush(x, y, a[0], b[0]); }
      BinaryStep(x, a);
      BinaryStep(y, b);
      BinaryStep(z, c);
      XorBinary(x', y', z', a[1..], b[1..], c[1..]);
    }
  }

  ghost predicate Differing(a: seq<bool>, b: seq<bool>, c: seq<bool>) {
    |a| == |b| == |c| && forall k :: 0 <= k < |c| ==> c[k] == (a[k] != b[k])
  }

  function One(b: bool): nat {
    if b then 1 else 0
  }

  function Digits(bits: seq<bool>): (d: seq<nat>)
    ensures |d| == |bits|
  {
    seq(|bits|, k requires 0 <= k < |bits| => One(bits[k]))
  }

  lemma DigitsDiffer(a: seq<bool>, b: seq<bool>, c: seq<bool>)
    requires Differing(a, b, c)
    ensures Differ(Digits(a), Digits(b), Digits(c))
  {
  }

  // A byte in its bits, highest first.
  datatype Octet = Octet(b7: bool, b6: bool, b5: bool, b4: bool, b3: bool, b2: bool, b1: bool, b0: bool) {
    function Low(): seq<bool> {
      [b3] + ([b2] + ([b1] + ([b0] + [])))
    }

    function High(low: seq<bool>): seq<bool> {
      [b7] + ([b6] + ([b5] + ([b4] + low)))
    }

    function Bits(): seq<bool> {
      High(Low())
    }

    function Value(): nat {
      128 * One(b7) + 64 * One(b6) + 32 * One(b5) + 16 * One(b4) + 8 * One(b3) + 4 * One(b2) + 2 * One(b1) + One(b0)
    }

    function Unlike(o: Octet): Octet {
      Octet(b7 != o.b7, b6 != o.b6, b5 != o.b5, b4 != o.b4, b3 != o.b3, b2 != o.b2, b1 != o.b1, b0 != o.b0)
    }
  }

  lemma BinaryMore(x: nat, p: bool, rest: seq<bool>)
    ensures Binary(x, Digits([p] + rest)) == Binary(2 * x + One(p), Digits(rest))
  {
    assert Digits([p] + rest)[1..] == Digits(rest);
  }

  lemma BinaryFour(x: nat, p: bool, q: bool, r: bool, s: bool, rest: seq<bool>, z: nat)
    requires z == 16 * x + 8 * One(p) + 4 * One(q) + 2 * One(r) + One(s)
    ensures Binary(x, Digits([p] + ([q] + ([r] + ([s] + rest))))) == Binary(z, Digits(rest))
  {
    var y := 2 * x + One(p);
    BinaryMore(x, p, [q] + ([r] + ([s] + rest)));
    BinaryMore(y, q, [r] + ([s] + rest));
    y := 2 * y + One(q);
    BinaryMore(y, r, [s] + rest);
    BinaryMore(2 * y + One(r), s, rest);
  }

  lemma BinaryOctet(x: nat, o: Octet)
    ensures Binary(x, Digits(o.Bits())) == 256 * x + o.Value()
  {
    var y := 16 * x + 8 * One(o.b7) + 4 * One(o.b6) + 2 * One(o.b5) + One(o.b4);
    BinaryFour(x, o.b7, o.b6, o.b5, o.b4, o.Low(), y);
    BinaryLow(y, o);
  }

  lemma BinaryLow(y: nat, o: Octet)
    ensures Binary(y, Digits(o.Low())) == 16 * y + 8 * One(o.b3) + 4 * One(o.b2) + 2 * One(o.b1) + One(o.b0)
  {
    BinaryFour(y, o.b3, o.b2, o.b1, o.b0, [],
               16 * y + 8 * One(o.b3) + 4 * One(o.b2) + 2 * One(o.b1) + One(o.b0));
  }
  lemma DifferingMore(p: bool, q: bool, a: seq<bool>, b: seq<bool>, c: seq<bool>)
    requires Differing(a, b, c)
    ensures Differing([p] + a, [q] + b, [p != q] + c)
  {
  }

  lemma DifferingTwo(p: bool, q: bool, r: bool, s: bool, a: seq<bool>, b: seq<bool>, c: seq<bool>)
    requires Differing(a, b, c)
    ensures Differing([p] + ([r] + a), [q] + ([s] + b), [p != q] + ([r != s] + c))
  {
    DifferingMore(r, s, a, b, c);
    DifferingMore(p, q, [r] + a, [s] + b, [r != s] + c);
  }

  // The low and the high half of two octets.
  lemma LowDiffers(a: Octet, b: Octet, c: Octet)
    requires c == a.Unlike(b)
    ensures Differing(a.Low(), b.Low(), c.Low())
  {
    DifferingTwo(a.b1, b.b1, a.b0, b.b0, [], [], []);
    DifferingTwo(a.b3, b.b3, a.b2, b.b2, [a.b1] + ([a.b0] + []), [b.b1] + ([b.b0] + []), [c.b1] + ([c.b0] + []));
  }

  lemma HighDiffers(a: Octet, b: Octet, c: Octet, x: seq<bool>, y: seq<bool>, z: seq<bool>)
    requires c == a.Unlike(b) && Differing(x, y, z)
    ensures Differing(a.High(x), b.High(y), c.High(z))
  {
    DifferingTwo(a.b5, b.b5, a.b4, b.b4, x, y, z);
    DifferingTwo(a.b7, b.b7, a.b6, b.b6, [a.b5] + ([a.b4] + x), [b.b5] + ([b.b4] + y), [c.b5] + ([c.b4] + z));
  }

  lemma UnlikeDiffers(a: Octet, b: Octet, c: Octet)
    requires c == a.Unlike(b)
    ensures Differing(a.Bits(), b.Bits(), c.Bits())
  {
    LowDiffers(a, b, c);
    HighDiffers(a, b, c, a.Low(), b.Low(), c.Low());
  }

  // The digits of two octets and of what they make.
  lemma OctetDigits(high: nat, a: Octet, b: Octet, c: Octet) returns (x: seq<nat>, y: seq<nat>, z: seq<nat>)
    requires c == a.Unlike(b)
    ensures Differ(x, y, z)
    ensures Binary(high, x) == 256 * high + a.Value()
    ensures Binary(0, y) == b.Value()
    ensures Binary(high, z) == 256 * high + c.Value()
  {
    UnlikeDiffers(a, b, c);
    DigitsDiffer(a.Bits(), b.Bits(), c.Bits());
    x, y, z := Digits(a.Bits()), Digits(b.Bits()), Digits(c.Bits());
    BinaryOctet(high, a);
    BinaryOctet(0, b);
    BinaryOctet(high, c);
  }

  // A byte meets the low eight bits only.
  lemma XorOctets(high: nat, a: Octet, b: Octet)
    ensures Xor(256 * high + a.Value(), b.Value()) == 256 * high + a.Unlike(b).Value()
  {
    var c := a.Unlike(b);
    var x, y, z := OctetDigits(high, a, b, c);
    XorValues(high, x, y, z, a.Value(), b.Value(), c.Value());
  }

  lemma XorValues(high: nat, a: seq<nat>, b: seq<nat>, c: seq<nat>, x: nat, y: nat, z: nat)
    requires Differ(a, b, c)
    requires Binary(high, a) == 256 * high + x && Binary(0, b) == y && Binary(high, c) == 256 * high + z
    ensures Xor(256 * high + x, y) == 256 * high + z
  {
    XorZero(high);
    XorBinary(high, 0, high, a, b, c);
  }

  lemma {:induction false} FoldAlong<T>(step: StepOf<T>, states: seq<T>, s: seq<Byte>)
    requires |states| == |s| + 1
    requires forall k :: 0 <= k < |s| ==> step(states[k], s[k]) == states[k + 1]
    ensures Fold(step, states[0], s) == states[|s|]
    decreases |s|
  {
    if s != [] { FoldAlong(step, states[1..], s[1..]); }
  }

  const LOWER_F := Octet(false, true, true, false, false, true, true, false)
  const LOWER_O := Octet(false, true, true, false, true, true, true, true)
  const LOWER_B := Octet(false, true, true, false, false, false, true, false)
  const LOWER_A := Octet(false, true, true, false, false, false, false, true)
  const LOWER_R := Octet(false, true, true, true, false, false, true, false)

  // One line of a computation on paper: a state, the byte that meets it, and what runs over.
  datatype Line = Line(high: nat, low: Octet, byte: Octet, over: nat)

  // ---------------------------------------------------------------------- 32 bits

  predicate Leads32(l: Line, h: U32, b: Byte, next: U32) {
    && h == 256 * l.high + l.low.Value() && b == l.byte.Value()
    && (256 * l.high + l.low.Unlike(l.byte).Value()) * 0x1000193 == next + 0x1_0000_0000 * l.over
  }

  lemma StepLeads32(l: Line, h: U32, b: Byte, next: U32)
    requires Leads32(l, h, b, next)
    ensures Step32(h, b) == next
  {
    XorOctets(l.high, l.low, l.byte);
    Reduce32(next, l.over);
  }

  lemma Computed32(lines: seq<Line>, states: seq<U32>, s: seq<Byte>)
    requires |lines| == |s| && |states| == |s| + 1
    requires forall k :: 0 <= k < |s| ==> Leads32(lines[k], states[k], s[k], states[k + 1])
    ensures Fold(Step32, states[0], s) == states[|s|]
  {
    forall k | 0 <= k < |s| ensures Step32(states[k], s[k]) == states[k + 1] {
      StepLeads32(lines[k], states[k], s[k], states[k + 1]);
    }
    FoldAlong(Step32, states, s);
  }

  // The published values for the empty message, "a" and "foobar".
  lemma Vectors32()
    ensures Hash32(AsciiBytes("")) == 0x811c9dc5
    ensures Hash32(AsciiBytes("a")) == 0xe40c292c
    ensures Hash32(AsciiBytes("foobar")) == 0xbf9cf968
  {
    var a := Line(0x811c9d, Octet(true, true, false, false, false, true, false, true), LOWER_A, 0x811d68);
    assert Leads32(a, 0x811c9dc5, 'a' as int, 0xe40c292c);
    Computed32([a], [0x811c9dc5, 0xe40c292c], AsciiBytes("a"));
    Foobar32();
  }

  lemma Foobar32()
    ensures Fold(Step32, 0x811c9dc5, AsciiBytes("foobar")) == 0xbf9cf968
  {
    Foo32();
    Bar32();
    FoldConcat(Step32, 0x811c9dc5, AsciiBytes("foo"), AsciiBytes("bar"));
    assert AsciiBytes("foobar") == AsciiBytes("foo") + AsciiBytes("bar");
  }

  lemma Three32(l0: Line, l1: Line, l2: Line, h0: U32, h1: U32, h2: U32, h3: U32, s: seq<Byte>)
    requires |s| == 3
    requires Leads32(l0, h0, s[0], h1) && Leads32(l1, h1, s[1], h2) && Leads32(l2, h2, s[2], h3)
    ensures Fold(Step32, h0, s) == h3
  {
    Computed32([l0, l1, l2], [h0, h1, h2, h3], s);
  }

  lemma Foo32()
    ensures Fold(Step32, 0x811c9dc5, AsciiBytes("foo")) == 0xa9f37ed7
  {
    Three32(
      Line(0x811c9d, Octet(true, true, false, false, false, true, false, true), LOWER_F, 0x811d68),
      Line(0xe30c27, Octet(true, false, false, true, true, false, false, true), LOWER_O, 0xe30d8d),
      Line(0x6222e8, Octet(false, true, false, false, false, false, true, false), LOWER_O, 0x622382),
      0x811c9dc5, 0xe30c2799, 0x6222e842, 0xa9f37ed7,
      AsciiBytes("foo"));
  }

  lemma Bar32()
    ensures Fold(Step32, 0xa9f37ed7, AsciiBytes("bar")) == 0xbf9cf968
  {
    Three32(
      Line(0xa9f37e, Octet(true, true, false, true, false, true, true, true), LOWER_B, 0xa9f48a),
      Line(0x3f5076, Octet(true, true, true, false, true, true, true, true), LOWER_A, 0x3f50da),
      Line(0x39aaa1, Octet(true, false, false, false, true, false, true, false), LOWER_R, 0x39aafc),
      0xa9f37ed7, 0x3f5076ef, 0x39aaa18a, 0xbf9cf968,
      AsciiBytes("bar"));
  }

  // ---------------------------------------------------------------------- 64 bits

  predicate Leads64(l: Line, h: U64, b: Byte, next: U64) {
    && h == 256 * l.high + l.low.Value() && b == l.byte.Value()
    && (256 * l.high + l.low.Unlike(l.byte).Value()) * 0x100000001b3 == next + 0x1_0000_0000_0000_0000 * l.over
  }

  lemma StepLeads64(l: Line, h: U64, b: Byte, next: U64)
    requires Leads64(l, h, b, next)
    ensures Step64(h, b) == next
  {
    XorOctets(l.high, l.low, l.byte);
    Reduce64(next, l.over);
  }

  lemma Computed64(lines: seq<Line>, states: seq<U64>, s: seq<Byte>)
    requires |lines| == |s| && |states| == |s| + 1
    requires forall k :: 0 <= k < |s| ==> Leads64(lines[k], states[k], s[k], states[k + 1])
    ensures Fold(Step64, states[0], s) == states[|s|]
  {
    forall k | 0 <= k < |s| ensures Step64(states[k], s[k]) == states[k + 1] {
      StepLeads64(lines[k], states[k], s[k], states[k + 1]);
    }
    FoldAlong(Step64, states, s);
  }

  // The published values for the empty message, "a" and "foobar".
  lemma Vectors64()
    ensures Hash64(AsciiBytes("")) == 0xcbf29ce484222325
    ensures Hash64(AsciiBytes("a")) == 0xaf63dc4c8601ec8c
    ensures Hash64(AsciiBytes("foobar")) == 0x85944171f73967e8
  {
    var a := Line(0xcbf29ce4842223, Octet(false, false, true, false, false, true, false, true), LOWER_A, 0xcbf29ce5de);
    assert Leads64(a, 0xcbf29ce484222325, 'a' as int, 0xaf63dc4c8601ec8c);
    Computed64([a], [0xcbf29ce484222325, 0xaf63dc4c8601ec8c], AsciiBytes("a"));
    Foobar64();
  }

  lemma Foobar64()
    ensures Fold(Step64, 0xcbf29ce484222325, AsciiBytes("foobar")) == 0x85944171f73967e8
  {
    Foo64();
    Bar64();
    FoldConcat(Step64, 0xcbf29ce484222325, AsciiBytes("foo"), AsciiBytes("bar"));
    assert AsciiBytes("foobar") == AsciiBytes("foo") + AsciiBytes("bar");
  }

  lemma Three64(l0: Line, l1: Line, l2: Line, h0: U64, h1: U64, h2: U64, h3: U64, s: seq<Byte>)
    requires |s| == 3
    requires Leads64(l0, h0, s[0], h1) && Leads64(l1, h1, s[1], h2) && Leads64(l2, h2, s[2], h3)
    ensures Fold(Step64, h0, s) == h3
  {
    Computed64([l0, l1, l2], [h0, h1, h2, h3], s);
  }

  lemma Foo64()
    ensures Fold(Step64, 0xcbf29ce484222325, AsciiBytes("foo")) == 0xdcb27518fed9d577
  {
    Three64(
      Line(0xcbf29ce4842223, Octet(false, false, true, false, false, true, false, true), LOWER_F, 0xcbf29ce5de),
      Line(0xaf63db4c8601ea, Octet(true, true, false, true, true, false, false, true), LOWER_O, 0xaf63db4db0),
      Line(0x8985907b541d3, Octet(false, true, false, false, false, false, true, false), LOWER_O, 0x8985907c3),
      0xcbf29ce484222325, 0xaf63db4c8601ead9, 0x8985907b541d342, 0xdcb27518fed9d577,
      AsciiBytes("foo"));
  }

  lemma Bar64()
    ensures Fold(Step64, 0xdcb27518fed9d577, AsciiBytes("bar")) == 0x85944171f73967e8
  {
    Three64(
      Line(0xdcb27518fed9d5, Octet(false, true, true, true, false, true, true, true), LOWER_B, 0xdcb2751a75),
      Line(0xdd120e790c2512, Octet(true, false, true, false, true, true, true, true), LOWER_A, 0xdd120e7a83),
      Line(0xcac165afa2fef4, Octet(false, false, false, false, true, false, true, false), LOWER_R, 0xcac165b0fb),
      0xdcb27518fed9d577, 0xdd120e790c2512af, 0xcac165afa2fef40a, 0x85944171f73967e8,
      AsciiBytes("bar"));
  }
}
