/**
 FNV-1a at both widths (section 2 of draft-eastlake-fnv). Multiplying by the odd
 prime can be undone, so every step is a bijection of the state: nothing that has
 been hashed in is lost along the way.
 */
module Fnv {
  import opened Bytes

  // ------------------------------------------------------- hashing with any step

  type StepOf<!T> = (T, Byte) -> T

  function Fold<T>(step: StepOf<T>, h: T, s: seq<Byte>): T
    decreases |s|
  {
    if s == [] then h else Fold(step, step(h, s[0]), s[1..])
  }

  // A byte and the state after it determine the state before it.
  ghost predicate Reversible<T(!new)>(step: StepOf<T>) {
    forall h, k, b :: step(h, b) == step(k, b) ==> h == k
  }

  // From one state, different bytes lead to different states.
  ghost predicate Separating<T(!new)>(step: StepOf<T>) {
    forall h, b, c :: step(h, b) == step(h, c) ==> b == c
  }

  lemma {:induction false} FoldConcat<T>(step: StepOf<T>, h: T, s: seq<Byte>, t: seq<Byte>)
    ensures Fold(step, h, s + t) == Fold(step, Fold(step, h, s), t)
    decreases |s|
  {
    if s == [] {
      assert s + t == t;
    } else {
      assert (s + t)[1..] == s[1..] + t;
      FoldConcat(step, step(h, s[0]), s[1..], t);
    }
  }

  // Hashing the same bytes into two states never merges them.
  lemma {:induction false} FoldReversible<T(!new)>(step: StepOf<T>, h: T, k: T, s: seq<Byte>)
    requires Reversible(step)
    ensures Fold(step, h, s) == Fold(step, k, s) <==> h == k
    decreases |s|
  {
    if s != [] {
      FoldReversible(step, step(h, s[0]), step(k, s[0]), s[1..]);
    }
  }

  // Messages that differ in exactly one byte never collide.
  lemma OneByteApart<T(!new)>(step: StepOf<T>, h: T, s: seq<Byte>, i: nat, b: Byte)
    requires Reversible(step) && Separating(step)
    requires i < |s| && s[i] != b
    ensures Fold(step, h, s[i := b]) != Fold(step, h, s)
  {
    var p, a, t := s[..i], s[i], s[i + 1..];
    assert s == p + ([a] + t) && s[i := b] == p + ([b] + t);
    FoldConcat(step, h, p, [a] + t);
    FoldConcat(step, h, p, [b] + t);
    var mid := Fold(step, h, p);
    assert ([a] + t)[1..] == t && ([b] + t)[1..] == t;
    FoldReversible(step, step(mid, a), step(mid, b), t);
  }

  // Messages with a common suffix collide exactly when what precedes it does.
  lemma CommonSuffix<T(!new)>(step: StepOf<T>, h: T, s: seq<Byte>, t: seq<Byte>, suffix: seq<Byte>)
    requires Reversible(step)
    ensures Fold(step, h, s + suffix) == Fold(step, h, t + suffix) <==> Fold(step, h, s) == Fold(step, h, t)
  {
    FoldConcat(step, h, s, suffix);
    FoldConcat(step, h, t, suffix);
    FoldReversible(step, Fold(step, h, s), Fold(step, h, t), suffix);
  }

  // ------------------------------------------------------------------ exclusive or

  // Bit by bit, lowest first.
  function Xor(a: nat, b: nat): nat {
    if a == 0 && b == 0 then 0 else 2 * Xor(a / 2, b / 2) + (a % 2 + b % 2) % 2
  }

  lemma XorBits(x: nat, y: nat, p: nat, q: nat)
    requires p < 2 && q < 2
    ensures (2 * x + (p + q) % 2) / 2 == x && ((p + q) % 2 + q) % 2 == p
  {
  }

  lemma {:induction false} XorUndone(a: nat, b: nat)
    ensures Xor(Xor(a, b), b) == a
    decreases a + b
  {
    if a != 0 || b != 0 {
      var x, p, q := Xor(a / 2, b / 2), a % 2, b % 2;
      var y := 2 * x + (p + q) % 2;
      assert Xor(a, b) == y;
      XorBits(x, b / 2, p, q);
      XorUndone(a / 2, b / 2);
      if y != 0 || b != 0 {
        assert Xor(y, b) == 2 * Xor(y / 2, b / 2) + (y % 2 + b % 2) % 2;
      }
    }
  }

  lemma {:induction false} XorSymmetric(a: nat, b: nat)
    ensures Xor(a, b) == Xor(b, a)
    decreases a + b
  {
    if a != 0 || b != 0 { XorSymmetric(a / 2, b / 2); }
  }

  lemma XorSeparates(a: nat, b: nat, c: nat)
    requires Xor(a, b) == Xor(a, c)
    ensures b == c
  {
    XorSymmetric(a, b);
    XorSymmetric(a, c);
    XorUndone(b, a);
    XorUndone(c, a);
  }

  function Pow2(k: nat): (p: nat)
    ensures p > 0
  {
    if k == 0 then 1 else 2 * Pow2(k - 1)
  }

  lemma Pow2Of32()
    ensures Pow2(32) == 0x1_0000_0000 && Pow2(8) == 256
  {
    assert Pow2(8) == 256;
    assert Pow2(16) == 0x1_0000;
    assert Pow2(24) == 0x100_0000;
  }

  lemma Pow2Of64()
    ensures Pow2(64) == 0x1_0000_0000_0000_0000
  {
    Pow2Of32();
    assert Pow2(40) == 0x100_0000_0000;
    assert Pow2(48) == 0x1_0000_0000_0000;
    assert Pow2(56) == 0x100_0000_0000_0000;
  }

  // Bit `k` of a number.
  function Bit(a: nat, k: nat): nat {
    if k == 0 then a % 2 else Bit(a / 2, k - 1)
  }

  // Bit by bit, the result has the bits in which the operands differ.
  lemma {:induction false} XorIsBitwise(a: nat, b: nat, k: nat)
    ensures Bit(Xor(a, b), k) == if Bit(a, k) == Bit(b, k) then 0 else 1
    decreases k
  {
    if a == 0 && b == 0 {
      ZeroBits(k);
    } else {
      var x := Xor(a / 2, b / 2);
      XorBits(x, b / 2, a % 2, b % 2);
      assert Xor(a, b) % 2 == (a % 2 + b % 2) % 2;
      if k > 0 { XorIsBitwise(a / 2, b / 2, k - 1); }
    }
  }

  lemma {:induction false} ZeroBits(k: nat)
    ensures Bit(0, k) == 0
  {
    if k > 0 { ZeroBits(k - 1); }
  }

  // The result is no wider than the operands.
  lemma {:induction false} XorBelow(a: nat, b: nat, k: nat)
    requires a < Pow2(k) && b < Pow2(k)
    ensures Xor(a, b) < Pow2(k)
    decreases k
  {
    if k > 0 && (a != 0 || b != 0) { XorBelow(a / 2, b / 2, k - 1); }
  }

  // ---------------------------------------------------------------------- 32 bits

  type U32 = n: nat | n < 0x1_0000_0000

  // `wrapping_mul` by the prime, and by its inverse.
  function Multiply32(h: U32): U32 {
    h * 0x1000193 % 0x1_0000_0000
  }

  function Unmultiply32(h: U32): U32 {
    h * 0x359c449b % 0x1_0000_0000
  }

  lemma Reduce32(h: U32, t: int)
    ensures (h + 0x1_0000_0000 * t) % 0x1_0000_0000 == h
  {
  }

  // The product of the two factors is one more than a multiple of the modulus.
  lemma MultiplyUndone32(h: U32)
    ensures Unmultiply32(Multiply32(h)) == h
  {
    var q := h * 0x1000193 / 0x1_0000_0000;
    assert h * 0x1000193 == 0x1_0000_0000 * q + Multiply32(h);
    assert Multiply32(h) * 0x359c449b == h + 0x1_0000_0000 * (0x359c99 * h - 0x359c449b * q);
    Reduce32(h, 0x359c99 * h - 0x359c449b * q);
  }

  lemma UnmultiplyUndone32(h: U32)
    ensures Multiply32(Unmultiply32(h)) == h
  {
    var q := h * 0x359c449b / 0x1_0000_0000;
    assert h * 0x359c449b == 0x1_0000_0000 * q + Unmultiply32(h);
    assert Unmultiply32(h) * 0x1000193 == h + 0x1_0000_0000 * (0x359c99 * h - 0x1000193 * q);
    Reduce32(h, 0x359c99 * h - 0x1000193 * q);
  }

  // `h ^= b`
  function Xor32(h: U32, b: Byte): U32 {
    Pow2Of32();
    XorBelow(h, b, 32);
    Xor(h, b)
  }

  function Step32(h: U32, b: Byte): U32 {
    Multiply32(Xor32(h, b))
  }

  // Each step is a bijection of the state: it can be taken back, and every state is
  // reached.
  lemma StepBijective32(h: U32, b: Byte)
    ensures Xor32(Unmultiply32(Step32(h, b)), b) == h
    ensures Step32(Xor32(Unmultiply32(h), b), b) == h
  {
    MultiplyUndone32(Xor32(h, b));
    XorUndone(h, b);
    XorUndone(Unmultiply32(h), b);
    UnmultiplyUndone32(h);
  }

  lemma Step32Ok()
    ensures Reversible(Step32) && Separating(Step32)
  {
    forall h: U32, k: U32, b: Byte | Step32(h, b) == Step32(k, b) ensures h == k {
      StepBijective32(h, b);
      StepBijective32(k, b);
    }
    forall h: U32, b: Byte, c: Byte | Step32(h, b) == Step32(h, c) ensures b == c {
      MultiplyUndone32(Xor32(h, b));
      MultiplyUndone32(Xor32(h, c));
      XorSeparates(h, b, c);
    }
  }

  function Hash32(s: seq<Byte>): U32 {
    Fold(Step32, 0x811c9dc5, s)
  }

  // Messages that differ in one byte never collide, and a common suffix never makes
  // two messages collide.
  lemma Hash32Injective(s: seq<Byte>, i: nat, b: Byte, t: seq<Byte>, suffix: seq<Byte>)
    ensures i < |s| && s[i] != b ==> Hash32(s[i := b]) != Hash32(s)
    ensures Hash32(s + suffix) == Hash32(t + suffix) <==> Hash32(s) == Hash32(t)
  {
    Step32Ok();
    if i < |s| && s[i] != b { OneByteApart(Step32, 0x811c9dc5, s, i, b); }
    CommonSuffix(Step32, 0x811c9dc5, s, t, suffix);
  }

  // `fnv32`
  method HashBytes32(bytes: seq<Byte>) returns (h: U32)
    ensures h == Hash32(bytes)
  {
    h := 0x811c9dc5;
    for i := 0 to |bytes|
      invariant Fold(Step32, h, bytes[i..]) == Hash32(bytes)
    {
      assert bytes[i..][1..] == bytes[i + 1..];
      ghost var before := h;
      h := Xor32(h, bytes[i]);
      h := Multiply32(h);
      assert h == Step32(before, bytes[i]);
    }
    assert bytes[|bytes|..] == [];
  }

  // ---------------------------------------------------------------------- 64 bits

  type U64 = n: nat | n < 0x1_0000_0000_0000_0000

  // `wrapping_mul` by the prime, and by its inverse.
  function Multiply64(h: U64): U64 {
    h * 0x100000001b3 % 0x1_0000_0000_0000_0000
  }

  function Unmultiply64(h: U64): U64 {
    h * 0xce965057aff6957b % 0x1_0000_0000_0000_0000
  }

  lemma Reduce64(h: U64, t: int)
    ensures (h + 0x1_0000_0000_0000_0000 * t) % 0x1_0000_0000_0000_0000 == h
  {
  }

  // The product of the two factors is one more than a multiple of the modulus.
  lemma MultiplyUndone64(h: U64)
    ensures Unmultiply64(Multiply64(h)) == h
  {
    var q := h * 0x100000001b3 / 0x1_0000_0000_0000_0000;
    assert h * 0x100000001b3 == 0x1_0000_0000_0000_0000 * q + Multiply64(h);
    assert Multiply64(h) * 0xce965057aff6957b
        == h + 0x1_0000_0000_0000_0000 * (0xce9650590f * h - 0xce965057aff6957b * q);
    Reduce64(h, 0xce9650590f * h - 0xce965057aff6957b * q);
  }

  lemma UnmultiplyUndone64(h: U64)
    ensures Multiply64(Unmultiply64(h)) == h
  {
    var q := h * 0xce965057aff6957b / 0x1_0000_0000_0000_0000;
    assert h * 0xce965057aff6957b == 0x1_0000_0000_0000_0000 * q + Unmultiply64(h);
    assert Unmultiply64(h) * 0x100000001b3 == h + 0x1_0000_0000_0000_0000 * (0xce9650590f * h - 0x100000001b3 * q);
    Reduce64(h, 0xce9650590f * h - 0x100000001b3 * q);
  }

  // `h ^= b`
  function Xor64(h: U64, b: Byte): U64 {
    Pow2Of64();
    XorBelow(h, b, 64);
    Xor(h, b)
  }

  function Step64(h: U64, b: Byte): U64 {
    Multiply64(Xor64(h, b))
  }

  // Each step is a bijection of the state: it can be taken back, and every state is
  // reached.
  lemma StepBijective64(h: U64, b: Byte)
    ensures Xor64(Unmultiply64(Step64(h, b)), b) == h
    ensures Step64(Xor64(Unmultiply64(h), b), b) == h
  {
    MultiplyUndone64(Xor64(h, b));
    XorUndone(h, b);
    XorUndone(Unmultiply64(h), b);
    UnmultiplyUndone64(h);
  }

  lemma Step64Ok()
    ensures Reversible(Step64) && Separating(Step64)
  {
    forall h: U64, k: U64, b: Byte | Step64(h, b) == Step64(k, b) ensures h == k {
      StepBijective64(h, b);
      StepBijective64(k, b);
    }
    forall h: U64, b: Byte, c: Byte | Step64(h, b) == Step64(h, c) ensures b == c {
      MultiplyUndone64(Xor64(h, b));
      MultiplyUndone64(Xor64(h, c));
      XorSeparates(h, b, c);
    }
  }

  function Hash64(s: seq<Byte>): U64 {
    Fold(Step64, 0xcbf29ce484222325, s)
  }

  // Messages that differ in one byte never collide, and a common suffix never makes
  // two messages collide.
  lemma Hash64Injective(s: seq<Byte>, i: nat, b: Byte, t: seq<Byte>, suffix: seq<Byte>)
    ensures i < |s| && s[i] != b ==> Hash64(s[i := b]) != Hash64(s)
    ensures Hash64(s + suffix) == Hash64(t + suffix) <==> Hash64(s) == Hash64(t)
  {
    Step64Ok();
    if i < |s| && s[i] != b { OneByteApart(Step64, 0xcbf29ce484222325, s, i, b); }
    CommonSuffix(Step64, 0xcbf29ce484222325, s, t, suffix);
  }

  // `fnv64`
  method HashBytes64(bytes: seq<Byte>) returns (h: U64)
    ensures h == Hash64(bytes)
  {
    h := 0xcbf29ce484222325;
    for i := 0 to |bytes|
      invariant Fold(Step64, h, bytes[i..]) == Hash64(bytes)
    {
      assert bytes[i..][1..] == bytes[i + 1..];
      ghost var before := h;
      h := Xor64(h, bytes[i]);
      h := Multiply64(h);
      assert h == Step64(before, bytes[i]);
    }
    assert bytes[|bytes|..] == [];
  }
}
