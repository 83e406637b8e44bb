/**
 UTF-8 as in RFC 3629: the encoding of scalar values (section 3) and the syntax of
 valid byte sequences (section 4), with the equivalence of the two.
 */
module Utf8 {
  import opened Bytes

  type Scalar = n: int | 0 <= n < 0xD800 || 0xE000 <= n <= 0x10FFFF

  // ------------------------------------------------------------------- encoding

  function EncodeScalar(c: Scalar): (b: seq<Byte>)
    ensures 1 <= |b| <= 4
  {
    var low: Byte := 0x80 + c % 64;
    var mid: Byte := 0x80 + c / 64 % 64;
    var high: Byte := 0x80 + c / 4096 % 64;
    if c < 0x80 then
      var only: Byte := c;
      [only]
    else if c < 0x800 then
      var lead: Byte := 0xC0 + c / 64;
      [lead, low]
    else if c < 0x10000 then
      var lead: Byte := 0xE0 + c / 4096;
      [lead, mid, low]
    else
      var lead: Byte := 0xF0 + c / 262144;
      [lead, high, mid, low]
  }

  function Encode(cs: seq<Scalar>): seq<Byte> {
    if cs == [] then [] else EncodeScalar(cs[0]) + Encode(cs[1..])
  }

  // ------------------------------------------------------------- byte sequences

  predicate IsTail(b: Byte) { 0x80 <= b < 0xC0 }

  predicate TailAt(s: seq<Byte>, i: nat) {
    i < |s| && IsTail(s[i])
  }

  // Length of the well-formed sequence `s` starts with, or 0 if it starts with none.
  function CharLen(s: seq<Byte>): (n: nat)
    ensures n <= 4 && n <= |s|
  {
    if s == [] then 0
    else
      var b := s[0];
      if b < 0x80 then 1
      else if 0xC2 <= b <= 0xDF && TailAt(s, 1) then 2
      else if 0xE0 <= b <= 0xEF && TailAt(s, 1) && TailAt(s, 2)
              && (b == 0xE0 ==> s[1] >= 0xA0) && (b == 0xED ==> s[1] <= 0x9F) then 3
      else if 0xF0 <= b <= 0xF4 && TailAt(s, 1) && TailAt(s, 2) && TailAt(s, 3)
              && (b == 0xF0 ==> s[1] >= 0x90) && (b == 0xF4 ==> s[1] <= 0x8F) then 4
      else 0
  }

  predicate Valid(s: seq<Byte>) {
    s == [] || (CharLen(s) > 0 && Valid(s[CharLen(s)..]))
  }

  function DecodeScalar(s: seq<Byte>): Scalar
    requires CharLen(s) > 0
  {
    var n := CharLen(s);
    var lead: int := s[0];
    if n == 1 then lead
    else
      var b1: int := s[1] - 0x80;
      if n == 2 then (lead - 0xC0) * 64 + b1
      else
        var b2: int := s[2] - 0x80;
        if n == 3 then (lead - 0xE0) * 4096 + b1 * 64 + b2
        else
          var b3: int := s[3] - 0x80;
          (lead - 0xF0) * 262144 + b1 * 4096 + b2 * 64 + b3
  }

  function Decode(s: seq<Byte>): seq<Scalar>
    requires Valid(s)
  {
    if s == [] then [] else [DecodeScalar(s)] + Decode(s[CharLen(s)..])
  }

  lemma Base64Digits(c: nat)
    ensures c == c / 64 * 64 + c % 64
    ensures c / 64 == c / 4096 * 64 + c / 64 % 64
    ensures c / 4096 == c / 262144 * 64 + c / 4096 % 64
  {
  }

  // Same first sequence, whatever follows.
  lemma FirstOnly(b: seq<Byte>, tail: seq<Byte>)
    requires CharLen(b) == |b| > 0
    ensures CharLen(b + tail) == |b| && DecodeScalar(b + tail) == DecodeScalar(b)
  {
    assert forall i: nat :: i < |b| ==> (TailAt(b + tail, i) <==> TailAt(b, i));
  }

  lemma ScalarAlone(c: Scalar)
    ensures CharLen(EncodeScalar(c)) == |EncodeScalar(c)| && DecodeScalar(EncodeScalar(c)) == c
  {
    Base64Digits(c);
    var b := EncodeScalar(c);
    assert |b| > 1 ==> TailAt(b, 1);
    assert |b| > 2 ==> TailAt(b, 2);
    assert |b| > 3 ==> TailAt(b, 3);
  }

  // One scalar value: encoding then decoding, whatever follows.
  lemma ScalarRoundTrip(c: Scalar, tail: seq<Byte>)
    ensures CharLen(EncodeScalar(c) + tail) == |EncodeScalar(c)|
    ensures DecodeScalar(EncodeScalar(c) + tail) == c
  {
    ScalarAlone(c);
    FirstOnly(EncodeScalar(c), tail);
  }

  // One base-64 digit split off.
  lemma Digits(rest: nat, low: nat)
    requires low < 64
    ensures (rest * 64 + low) / 64 == rest && (rest * 64 + low) % 64 == low
  {
  }

  // One well-formed sequence: decoding then encoding.
  lemma SequenceRoundTrip(s: seq<Byte>)
    requires CharLen(s) > 0
    ensures EncodeScalar(DecodeScalar(s)) == s[..CharLen(s)]
  {
    match CharLen(s) {
      case 2 => TwoBytes(s);
      case 3 => ThreeBytes(s);
      case 4 => FourBytes(s);
      case _ =>
    }
  }

  lemma TwoBytes(s: seq<Byte>)
    requires CharLen(s) == 2
    ensures EncodeScalar(DecodeScalar(s)) == s[..2]
  {
    Digits(s[0] - 0xC0, s[1] - 0x80);
  }

  lemma ThreeBytes(s: seq<Byte>)
    requires CharLen(s) == 3
    ensures EncodeScalar(DecodeScalar(s)) == s[..3]
  {
    var lead: int := s[0];
    var top: int := (lead - 0xE0) * 64 + (s[1] as int - 0x80);
    Digits(lead - 0xE0, s[1] - 0x80);
    Digits(top, s[2] - 0x80);
  }

  lemma FourBytes(s: seq<Byte>)
    requires CharLen(s) == 4
    ensures EncodeScalar(DecodeScalar(s)) == s[..4]
  {
    var lead: int := s[0];
    var top: int := (lead - 0xF0) * 64 + (s[1] as int - 0x80);
    var next: int := top * 64 + (s[2] as int - 0x80);
    Digits(lead - 0xF0, s[1] - 0x80);
    Digits(top, s[2] - 0x80);
    Digits(next, s[3] - 0x80);
  }

  // The encoding of a first character and of the rest.
  lemma EncodeCons(c: Scalar, rest: seq<Scalar>, s: seq<Byte>, n: nat)
    requires n <= |s| && EncodeScalar(c) == s[..n] && Encode(rest) == s[n..]
    ensures Encode([c] + rest) == s
  {
    var cs := [c] + rest;
    assert cs[1..] == rest && cs[0] == c;
    assert s == s[..n] + s[n..];
  }

  lemma {:induction false} DecodeOfEncode(cs: seq<Scalar>)
    ensures Valid(Encode(cs)) && Decode(Encode(cs)) == cs
  {
    if cs != [] {
      ScalarRoundTrip(cs[0], Encode(cs[1..]));
      DecodeOfEncode(cs[1..]);
      assert Encode(cs)[|EncodeScalar(cs[0])|..] == Encode(cs[1..]);
    }
  }

  lemma {:induction false} EncodeOfDecode(s: seq<Byte>)
    requires Valid(s)
    ensures Encode(Decode(s)) == s
  {
    if s != [] {
      var n := CharLen(s);
      SequenceRoundTrip(s);
      EncodeOfDecode(s[n..]);
      EncodeCons(DecodeScalar(s), Decode(s[n..]), s, n);
    }
  }

  // The syntax of section 4 accepts exactly the encodings of section 3.
  lemma ValidExact(s: seq<Byte>)
    ensures Valid(s) <==> exists cs :: Encode(cs) == s
  {
    if Valid(s) { EncodeOfDecode(s); }
    forall cs | Encode(cs) == s ensures Valid(s) { DecodeOfEncode(cs); }
  }

  lemma {:induction false} EncodeConcat(a: seq<Scalar>, b: seq<Scalar>)
    ensures Encode(a + b) == Encode(a) + Encode(b)
  {
    if a == [] {
      assert a + b == b;
    } else {
      assert (a + b)[1..] == a[1..] + b;
      EncodeConcat(a[1..], b);
    }
  }

  lemma {:induction false} ValidConcat(a: seq<Byte>, b: seq<Byte>)
    requires Valid(a) && Valid(b)
    ensures Valid(a + b) && Decode(a + b) == Decode(a) + Decode(b)
  {
    EncodeOfDecode(a);
    EncodeOfDecode(b);
    EncodeConcat(Decode(a), Decode(b));
    DecodeOfEncode(Decode(a) + Decode(b));
  }

  // ------------------------------------------------------------- char boundaries

  // `str::is_char_boundary`: it looks at one byte only.
  predicate IsBoundary(s: seq<Byte>, i: nat) {
    i == 0 || i == |s| || (i < |s| && !IsTail(s[i]))
  }

  // How `s` looks around position `i` when its first sequence has length `n`.
  lemma CutFirst(s: seq<Byte>, i: nat)
    requires CharLen(s) > 0 && i <= |s|
    ensures 0 < i < CharLen(s) ==> IsTail(s[i]) && CharLen(s[..i]) == 0
    ensures CharLen(s) <= i ==>
              CharLen(s[..i]) == CharLen(s) && s[..i][CharLen(s)..] == s[CharLen(s)..][..i - CharLen(s)]
  {
    var n := CharLen(s);
    assert forall k: nat :: k < i ==> (TailAt(s[..i], k) <==> TailAt(s, k));
    if 0 < i < n {
      assert TailAt(s, i);
      assert !TailAt(s[..i], i);
    }
  }

  // On a valid string the one-byte test is exact: `i` is a boundary if and only if
  // cutting there leaves a valid prefix, and then the suffix is valid too.
  lemma {:induction false} BoundaryExact(s: seq<Byte>, i: nat)
    requires Valid(s) && i <= |s|
    ensures IsBoundary(s, i) <==> Valid(s[..i])
    ensures IsBoundary(s, i) ==> Valid(s[i..])
    decreases |s|
  {
    if i == |s| {
      assert s[..i] == s;
    } else if s != [] && i > 0 {
      var n := CharLen(s);
      CutFirst(s, i);
      if n <= i {
        BoundaryExact(s[n..], i - n);
        assert s[i..] == s[n..][i - n..];
        if i == n {
          assert s[..i][n..] == [];
          FirstIsNotTail(s[n..]);
        }
      }
    }
  }

  lemma FirstIsNotTail(s: seq<Byte>)
    requires Valid(s) && s != []
    ensures !IsTail(s[0])
  {
  }

  // Around any position there is a boundary within three bytes on each side.
  lemma {:induction false} BoundariesNearby(s: seq<Byte>, i: nat) returns (lo: nat, hi: nat)
    requires Valid(s) && i <= |s|
    ensures lo <= i <= hi <= |s| && IsBoundary(s, lo) && IsBoundary(s, hi)
    ensures i - lo <= 3 && hi - i <= 3
    decreases |s|
  {
    if s == [] || i == 0 {
      lo, hi := i, i;
    } else {
      var n := CharLen(s);
      if n <= i {
        lo, hi := BoundariesNearby(s[n..], i - n);
        if n < |s| { FirstIsNotTail(s[n..]); }
        lo, hi := lo + n, hi + n;
      } else {
        lo, hi := 0, n;
        if n < |s| { FirstIsNotTail(s[n..]); }
      }
    }
  }

  // ------------------------------------------------------------------- characters

  // Characters counted as `chars().count()` does, byte by byte.
  function Heads(s: seq<Byte>): nat {
    if s == [] then 0 else (if IsTail(s[0]) then 0 else 1) + Heads(s[1..])
  }

  lemma {:induction false} HeadsOfTails(s: seq<Byte>, n: nat)
    requires n <= |s| && forall i :: 0 <= i < n ==> IsTail(s[i])
    ensures Heads(s) == Heads(s[n..])
  {
    if n > 0 {
      assert s[1..][n - 1..] == s[n..];
      HeadsOfTails(s[1..], n - 1);
    } else {
      assert s[n..] == s;
    }
  }

  // A valid string has as many characters as non-continuation bytes.
  lemma {:induction false} CountIsHeads(s: seq<Byte>)
    requires Valid(s)
    ensures |Decode(s)| == Heads(s)
  {
    if s != [] {
      var n := CharLen(s);
      assert !IsTail(s[0]);
      assert forall i :: 1 <= i < n ==> TailAt(s, i);
      HeadsOfTails(s[1..], n - 1);
      assert s[1..][n - 1..] == s[n..];
      CountIsHeads(s[n..]);
    }
  }
}
