/**
 Passing a host string (UTF-16 code units) into wasm memory as UTF-8: an ASCII fast
 path that writes unit by unit, then a reallocation and the encoder for the rest.
 */
module StringPass {
  import opened Bytes
  import opened Utf8

  type Unit = n: int | 0 <= n < 0x10000

  predicate IsHigh(u: Unit) { 0xD800 <= u < 0xDC00 }

  predicate IsLow(u: Unit) { 0xDC00 <= u < 0xE000 }

  const REPLACEMENT: Scalar := 0xFFFD

  // The scalar values of a string; a lone surrogate becomes U+FFFD.
  function Scalars(s: seq<Unit>): seq<Scalar> {
    if s == [] then []
    else if IsHigh(s[0]) && |s| > 1 && IsLow(s[1]) then
      [0x10000 + (s[0] as int - 0xD800) * 0x400 + (s[1] as int - 0xDC00)] + Scalars(s[2..])
    else if IsHigh(s[0]) || IsLow(s[0]) then [REPLACEMENT] + Scalars(s[1..])
    else [s[0] as int] + Scalars(s[1..])
  }

  // `TextEncoder.encode`
  function Utf8Of(s: seq<Unit>): seq<Byte> {
    Encode(Scalars(s))
  }

  // Three bytes per code unit are always enough.
  lemma {:induction false} ThreeBytesSuffice(s: seq<Unit>)
    ensures |Utf8Of(s)| <= 3 * |s|
  {
    if s != [] {
      var n := if IsHigh(s[0]) && |s| > 1 && IsLow(s[1]) then 2 else 1;
      var cs := Scalars(s);
      ThreeBytesSuffice(s[n..]);
      assert cs[1..] == Scalars(s[n..]);
    }
  }

  // An ASCII prefix encodes to itself and does not disturb what follows.
  lemma {:induction false} AsciiPrefix(a: seq<Unit>, b: seq<Unit>)
    requires forall i :: 0 <= i < |a| ==> a[i] < 0x80
    ensures |Utf8Of(a + b)| == |a| + |Utf8Of(b)|
    ensures forall i :: 0 <= i < |a| ==> Utf8Of(a + b)[i] == a[i]
    ensures Utf8Of(a + b)[|a|..] == Utf8Of(b)
  {
    if a == [] {
      assert a + b == b;
    } else {
      AsciiPrefix(a[1..], b);
      assert (a + b)[1..] == a[1..] + b;
      var cs := Scalars(a + b);
      assert cs == [a[0] as int] + Scalars(a[1..] + b);
      assert cs[1..] == Scalars(a[1..] + b);
      var rest := Utf8Of(a[1..] + b);
      assert Utf8Of(a + b) == EncodeScalar(a[0]) + rest;
      assert |EncodeScalar(a[0])| == 1;
    }
  }

  // The same units again from decoded scalar values.
  function Units(cs: seq<Scalar>): seq<Unit> {
    if cs == [] then []
    else if cs[0] < 0x10000 then [cs[0] as int] + Units(cs[1..])
    else
      var c: int := cs[0];
      var n: int := c - 0x10000;
      [0xD800 + n / 0x400, 0xDC00 + n % 0x400] + Units(cs[1..])
  }

  // A scalar value beyond 16 bits as two units (section 2.1 of RFC 2781).
  lemma PairExact(c: Scalar, high: Unit, low: Unit)
    requires c >= 0x10000
    requires high == 0xD800 + (c - 0x10000) / 0x400 && low == 0xDC00 + (c - 0x10000) % 0x400
    ensures Scalars([high, low]) == [c] && Utf8Of([high, low]) == EncodeScalar(c)
  {
    var s := [high, low];
    assert s[2..] == [] && Scalars([]) == [];
    assert c - 0x10000 == (c - 0x10000) / 0x400 * 0x400 + (c - 0x10000) % 0x400;
    assert Scalars(s) == [c] + Scalars(s[2..]) == [c];
    assert [c][1..] == [] && Encode([c]) == EncodeScalar(c) + Encode([]);
  }

  // No surrogate stands alone.
  predicate WellFormed(s: seq<Unit>) {
    s == [] ||
    if IsHigh(s[0]) then |s| > 1 && IsLow(s[1]) && WellFormed(s[2..])
    else !IsLow(s[0]) && WellFormed(s[1..])
  }

  lemma {:induction false} UnitsOfScalars(s: seq<Unit>)
    ensures Units(Scalars(s)) == s <==> WellFormed(s)
    ensures |Units(Scalars(s))| == |s|
  {
    if s != [] {
      var cs := Scalars(s);
      if IsHigh(s[0]) && |s| > 1 && IsLow(s[1]) {
        UnitsOfScalars(s[2..]);
        assert cs[1..] == Scalars(s[2..]);
        assert Units(cs) == s[..2] + Units(Scalars(s[2..]));
        assert Units(cs)[2..] == Units(Scalars(s[2..]));
        assert s == s[..2] + s[2..];
      } else {
        UnitsOfScalars(s[1..]);
        assert cs[1..] == Scalars(s[1..]);
        assert Units(cs)[1..] == Units(Scalars(s[1..]));
        assert s == [s[0]] + s[1..];
      }
    }
  }

  // A surrogate without its other half.
  predicate LoneAt(s: seq<Unit>, i: nat)
    requires i < |s|
  {
    || (0xD800 <= s[i] < 0xDC00 && !(i + 1 < |s| && 0xDC00 <= s[i + 1] < 0xE000))
    || (0xDC00 <= s[i] < 0xE000 && !(i > 0 && 0xD800 <= s[i - 1] < 0xDC00))
  }

  // What decoding gives back, unit by unit: each lone surrogate, and nothing else, is
  // replaced.
  lemma {:induction false} UnitsExact(s: seq<Unit>, i: nat)
    requires i < |s|
    ensures |Units(Scalars(s))| == |s|
    ensures Units(Scalars(s))[i] == if LoneAt(s, i) then 0xFFFD else s[i]
    decreases |s|
  {
    UnitsOfScalars(s);
    var n := if IsHigh(s[0]) && |s| > 1 && IsLow(s[1]) then 2 else 1;
    var cs := Scalars(s);
    assert cs[1..] == Scalars(s[n..]);
    assert Units(cs) == Units(cs)[..n] + Units(cs[1..]);
    if i >= n {
      UnitsExact(s[n..], i - n);
      assert Units(cs)[i] == Units(cs[1..])[i - n];
      assert LoneAt(s, i) <==> LoneAt(s[n..], i - n);
    }
  }

  // What reaches wasm is valid UTF-8, and decoding it gives the host's string back
  // if and only if that string has no lone surrogate.
  lemma LosslessIff(s: seq<Unit>)
    ensures Valid(Utf8Of(s))
    ensures Units(Decode(Utf8Of(s))) == s <==> WellFormed(s)
  {
    DecodeOfEncode(Scalars(s));
    UnitsOfScalars(s);
  }

  // ------------------------------------------------------------------------ encodeInto

  // `TextEncoder.encodeInto` writes whole characters while they fit.
  function Fitting(cs: seq<Scalar>, room: nat): seq<Byte> {
    if cs == [] || |EncodeScalar(cs[0])| > room then []
    else EncodeScalar(cs[0]) + Fitting(cs[1..], room - |EncodeScalar(cs[0])|)
  }

  lemma {:induction false} AllFits(cs: seq<Scalar>, room: nat)
    requires |Encode(cs)| <= room
    ensures Fitting(cs, room) == Encode(cs)
  {
    if cs != [] {
      AllFits(cs[1..], room - |EncodeScalar(cs[0])|);
    }
  }

  // An ASCII prefix copied unit by unit and the encoder's output for the rest make up
  // the encoding, and the encoder has room for all of it.
  lemma PrefixThenRest(arg: seq<Unit>, ascii: seq<Byte>)
    requires |ascii| <= |arg| && forall i :: 0 <= i < |ascii| ==> arg[i] < 0x80 && ascii[i] == arg[i]
    ensures var rest := arg[|ascii|..];
            && Fitting(Scalars(rest), 3 * |rest|) == Utf8Of(rest) && |Utf8Of(rest)| <= 3 * |rest|
            && Utf8Of(arg) == ascii + Utf8Of(rest)
  {
    var first, rest := arg[..|ascii|], arg[|ascii|..];
    AsciiPrefix(first, rest);
    assert arg == first + rest;
    assert Utf8Of(arg)[..|ascii|] == ascii;
    ThreeBytesSuffice(rest);
    AllFits(Scalars(rest), 3 * |rest|);
  }

  // ------------------------------------------------------------------ linear memory

  predicate InRange(a: nat, p: nat, n: nat) { p <= a < p + n }

  function Range(p: nat, n: nat): set<nat> {
    set a: nat | a < p + n && InRange(a, p, n)
  }

  lemma SliceOfSlice(a: seq<Byte>, p: nat, n: nat, k: nat)
    requires k <= n && p + n <= |a|
    ensures a[p..p + n][..k] == a[p..p + k]
  {
  }

  lemma StoreOne(a: seq<Byte>, p: nat, k: nat, b: Byte)
    requires p + k < |a|
    ensures a[p + k := b][p..p + k + 1] == a[p..p + k] + [b]
  {
  }

  // Linear memory and its allocator. Callers know of the allocator only what the
  // contracts of `Malloc` and `Realloc` say; the bodies are one allocator among many.
  class Memory {
    var bytes: seq<Byte>
    ghost var owned: set<nat>      // addresses handed out

    ghost predicate Valid()
      reads this
    {
      forall a :: a in owned ==> a < |bytes|
    }

    method Malloc(n: nat) returns (p: nat)
      requires Valid()
      modifies this
      ensures Valid()
      ensures Range(p, n) !! old(owned) && owned == old(owned) + Range(p, n)
      ensures p + n <= |bytes| && |bytes| >= |old(bytes)|
      ensures forall a :: a in old(owned) ==> bytes[a] == old(bytes)[a]
    {
      p := |bytes|;
      bytes := bytes + seq(n, _ => 0);
      owned := owned + Range(p, n);
    }

    method Realloc(p: nat, oldSize: nat, newSize: nat) returns (q: nat)
      requires Valid() && Range(p, oldSize) <= owned && p + oldSize <= |bytes|
      modifies this
      ensures Valid()
      ensures var others := old(owned) - Range(p, oldSize);
              && Range(q, newSize) !! others && owned == others + Range(q, newSize)
              && forall a :: a in others ==> bytes[a] == old(bytes)[a]
      ensures q + newSize <= |bytes| && |bytes| >= |old(bytes)|
      ensures var keep := if oldSize < newSize then oldSize else newSize;
              bytes[q..q + keep] == old(bytes)[p..p + keep]
    {
      q := |bytes|;
      var keep := if oldSize < newSize then oldSize else newSize;
      var kept := bytes[p..p + keep];
      bytes := bytes + kept + seq(newSize - keep, _ => 0);
      owned := (owned - Range(p, oldSize)) + Range(q, newSize);
      assert bytes[q..q + keep] == kept;
    }

    // A store of `data` at `p`, inside one allocation.
    method Store(p: nat, data: seq<Byte>)
      requires Valid() && Range(p, |data|) <= owned && p + |data| <= |bytes|
      modifies this`bytes
      ensures Valid() && |bytes| == |old(bytes)|
      ensures bytes[p..p + |data|] == data
      ensures forall a :: 0 <= a < |bytes| && a !in Range(p, |data|) ==> bytes[a] == old(bytes)[a]
    {
      bytes := bytes[..p] + data + bytes[p + |data|..];
    }

    // `passStringToWasm0`: with or without a `realloc`, exactly the UTF-8 encoding is
    // left in a fresh allocation of that size, and nothing else owned is touched.
    method PassString(arg: seq<Unit>, hasRealloc: bool) returns (ptr: nat, len: nat)
      requires Valid()
      modifies this
      ensures Valid()
      ensures len == |Utf8Of(arg)| && ptr + len <= |bytes|
      ensures bytes[ptr..ptr + len] == Utf8Of(arg)
      ensures Range(ptr, len) !! old(owned) && owned == old(owned) + Range(ptr, len)
      ensures |bytes| >= |old(bytes)| && forall a :: a in old(owned) ==> bytes[a] == old(bytes)[a]
    {
      if !hasRealloc {
        var buf := Utf8Of(arg);
        ptr := Malloc(|buf|);
        Store(ptr, buf);
        return ptr, |buf|;
      }
      ptr, len := PassWithRealloc(arg);
    }

    method PassWithRealloc(arg: seq<Unit>) returns (ptr: nat, offset: nat)
      requires Valid()
      modifies this
      ensures Valid()
      ensures offset == |Utf8Of(arg)| && ptr + offset <= |bytes|
      ensures bytes[ptr..ptr + offset] == Utf8Of(arg)
      ensures Range(ptr, offset) !! old(owned) && owned == old(owned) + Range(ptr, offset)
      ensures |bytes| >= |old(bytes)| && forall a :: a in old(owned) ==> bytes[a] == old(bytes)[a]
    {
      var size := |arg|;
      ptr := Malloc(size);
      offset := FillAscii(arg, ptr, old(owned));
      if offset != size {
        ptr, offset := EncodeRest(arg, ptr, size, offset, old(owned));
      } else {
        ghost var ascii := bytes[ptr..ptr + offset];
        PrefixThenRest(arg, ascii);
        assert arg[offset..] == [] && Utf8Of([]) == [];
      }
    }

    // The fast path: units are stored as bytes up to the first that is not ASCII.
    method FillAscii(arg: seq<Unit>, p: nat, ghost others: set<nat>) returns (offset: nat)
      requires Valid() && p + |arg| <= |bytes|
      requires Range(p, |arg|) !! others && owned == others + Range(p, |arg|)
      modifies this`bytes
      ensures Valid() && |bytes| == |old(bytes)| && offset <= |arg|
      ensures forall i :: 0 <= i < offset ==> arg[i] < 0x80 && bytes[p..p + offset][i] == arg[i]
      ensures offset < |arg| ==> arg[offset] >= 0x80
      ensures forall a :: a in others ==> bytes[a] == old(bytes)[a]
    {
      offset := 0;
      ghost var wrote: seq<Byte> := [];
      while offset < |arg|
        invariant offset <= |arg| && |bytes| == |old(bytes)|
        invariant bytes[p..p + offset] == wrote && |wrote| == offset
        invariant forall i :: 0 <= i < offset ==> arg[i] < 0x80 && wrote[i] == arg[i]
        invariant forall a :: a in others ==> bytes[a] == old(bytes)[a]
      {
        var code := arg[offset];
        if code > 0x7F {
          break;
        }
        assert InRange(p + offset, p, |arg|);
        StoreOne(bytes, p, offset, code);
        bytes := bytes[p + offset := code];
        offset, wrote := offset + 1, wrote + [code];
      }
    }

    // The slow path: `offset` ASCII bytes are in place in the allocation at `p`.
    method EncodeRest(arg: seq<Unit>, p: nat, size: nat, offset: nat, ghost others: set<nat>)
      returns (ptr: nat, len: nat)
      requires Valid()
      requires offset <= size == |arg| && p + size <= |bytes|
      requires Range(p, size) !! others && owned == others + Range(p, size)
      requires forall i :: 0 <= i < offset ==> arg[i] < 0x80 && bytes[p..p + offset][i] == arg[i]
      modifies this
      ensures Valid()
      ensures len == |Utf8Of(arg)| && ptr + len <= |bytes|
      ensures bytes[ptr..ptr + len] == Utf8Of(arg)
      ensures Range(ptr, len) !! others && owned == others + Range(ptr, len)
      ensures |bytes| >= |old(bytes)| && forall a :: a in others ==> a < |old(bytes)| && bytes[a] == old(bytes)[a]
    {
      var rest := arg[offset..];
      ghost var ascii := bytes[p..p + offset];
      PrefixThenRest(arg, ascii);
      var room := offset + 3 * |rest|;
      var first := Grow(p, size, room, offset, others);
      var written := Fitting(Scalars(rest), room - offset);
      StoreRest(first, room, offset, written, others);
      len := offset + |written|;
      assert bytes[first..first + len] == ascii + written == Utf8Of(arg);
      ptr := Grow(first, room, len, len, others);
    }

    // A reallocation of the block at `p` that keeps its first `keep` bytes.
    method Grow(p: nat, oldSize: nat, newSize: nat, keep: nat, ghost others: set<nat>) returns (q: nat)
      requires Valid() && p + oldSize <= |bytes| && keep <= oldSize && keep <= newSize
      requires Range(p, oldSize) !! others && owned == others + Range(p, oldSize)
      modifies this
      ensures Valid() && q + newSize <= |bytes| && |bytes| >= |old(bytes)|
      ensures Range(q, newSize) !! others && owned == others + Range(q, newSize)
      ensures bytes[q..q + keep] == old(bytes)[p..p + keep]
      ensures forall a :: a in others ==> a < |old(bytes)| && bytes[a] == old(bytes)[a]
    {
      assert owned - Range(p, oldSize) == others;
      var least := if oldSize < newSize then oldSize else newSize;
      SliceOfSlice(bytes, p, least, keep);
      q := Realloc(p, oldSize, newSize);
      SliceOfSlice(bytes, q, least, keep);
    }

    // The encoder's output goes behind the first `offset` bytes of the allocation.
    method StoreRest(p: nat, room: nat, offset: nat, data: seq<Byte>, ghost others: set<nat>)
      requires Valid() && p + room <= |bytes| && offset + |data| <= room
      requires Range(p, room) !! others && owned == others + Range(p, room)
      modifies this`bytes
      ensures Valid() && |bytes| == |old(bytes)|
      ensures bytes[p..p + offset] == old(bytes)[p..p + offset]
      ensures bytes[p + offset..p + offset + |data|] == data
      ensures bytes[p..p + offset + |data|] == bytes[p..p + offset] + data
      ensures forall a :: a in others ==> bytes[a] == old(bytes)[a]
    {
      forall a | a in Range(p + offset, |data|) ensures a in owned && a !in others {
        assert InRange(a, p, room);
      }
      Store(p + offset, data);
      forall a | a in Range(p, offset) ensures a !in Range(p + offset, |data|) {}
      forall a: nat | a < p + offset ensures bytes[a] == old(bytes)[a] {
        assert !InRange(a, p + offset, |data|);
      }
    }
  }
}
