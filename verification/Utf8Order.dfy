/**
 What fixes the encoding from outside: UTF-8 text sorts by bytes as it does by scalar
 values (section 1 of RFC 3629), and the examples of section 7.
 */
module Utf8Order {
  import opened Bytes
  import opened Utf8

  // `y` comes after `x` from the first element in which they differ.
  ghost predicate Before(x: seq<Byte>, y: seq<Byte>) {
    exists k: nat :: DifferFrom(x, y, k)
  }

  ghost predicate DifferFrom(x: seq<Byte>, y: seq<Byte>, k: nat) {
    k < |x| && k < |y| && x[..k] == y[..k] && x[k] < y[k]
  }

  // The first place in which `x` and `y` differ is one of the first four.
  lemma FirstOf4(x: seq<Byte>, y: seq<Byte>)
    requires |x| == |y| <= 4
    requires |x| > 0 ==> x[0] <= y[0]
    requires |x| > 1 && x[0] == y[0] ==> x[1] <= y[1]
    requires |x| > 2 && x[0] == y[0] && x[1] == y[1] ==> x[2] <= y[2]
    requires |x| > 3 && x[0] == y[0] && x[1] == y[1] && x[2] == y[2] ==> x[3] <= y[3]
    requires x != y
    ensures Before(x, y)
  {
    if x[0] != y[0] {
      assert DifferFrom(x, y, 0);
    } else if x[1] != y[1] {
      assert DifferFrom(x, y, 1);
    } else if x[2] != y[2] {
      assert DifferFrom(x, y, 2);
    } else {
      assert DifferFrom(x, y, 3);
    }
  }

  lemma TailDigits(a: Scalar, b: Scalar)
    requires a < b
    ensures a / 262144 <= b / 262144 && a / 4096 <= b / 4096 && a / 64 <= b / 64
    ensures a / 262144 == b / 262144 ==> a / 4096 % 64 <= b / 4096 % 64
    ensures a / 4096 == b / 4096 ==> a / 64 % 64 <= b / 64 % 64
    ensures a / 64 == b / 64 ==> a % 64 < b % 64
    ensures a / 262144 == b / 262144 && a / 4096 % 64 == b / 4096 % 64 ==> a / 4096 == b / 4096
    ensures a / 4096 == b / 4096 && a / 64 % 64 == b / 64 % 64 ==> a / 64 == b / 64
  {
    Base64Digits(a);
    Base64Digits(b);
  }

  lemma WiderIsLater(a: Scalar, b: Scalar)
    requires a < b && |EncodeScalar(a)| != |EncodeScalar(b)|
    ensures EncodeScalar(a)[0] < EncodeScalar(b)[0]
  {
  }

  lemma SameWidth(a: Scalar, b: Scalar, x: seq<Byte>, y: seq<Byte>)
    requires a < b && x == EncodeScalar(a) && y == EncodeScalar(b) && |x| == |y|
    ensures Before(x, y)
  {
    TailDigits(a, b);
    assert x != y by { ScalarAlone(a); ScalarAlone(b); }
    FirstOf4(x, y);
  }

  lemma ScalarOrder(a: Scalar, b: Scalar)
    requires a < b
    ensures Before(EncodeScalar(a), EncodeScalar(b))
  {
    var x, y := EncodeScalar(a), EncodeScalar(b);
    if |x| != |y| {
      WiderIsLater(a, b);
      assert DifferFrom(x, y, 0);
    } else {
      SameWidth(a, b, x, y);
    }
  }

  // What stands before and behind changes nothing.
  lemma BeforeInside(p: seq<Byte>, x: seq<Byte>, y: seq<Byte>, t: seq<Byte>, u: seq<Byte>)
    requires Before(x, y)
    ensures Before(p + (x + t), p + (y + u))
  {
    var k: nat :| DifferFrom(x, y, k);
    var l, r := p + (x + t), p + (y + u);
    assert l[..|p| + k] == p + x[..k] && r[..|p| + k] == p + y[..k];
    assert DifferFrom(l, r, |p| + k);
  }

  // Texts that first differ at character `k` are encoded in the same order.
  lemma OrderKept(cs: seq<Scalar>, ds: seq<Scalar>, k: nat)
    requires k < |cs| && k < |ds| && cs[..k] == ds[..k] && cs[k] < ds[k]
    ensures Before(Encode(cs), Encode(ds))
  {
    ScalarOrder(cs[k], ds[k]);
    EncodedAround(cs, k);
    EncodedAround(ds, k);
    BeforeInside(Encode(cs[..k]), EncodeScalar(cs[k]), EncodeScalar(ds[k]), Encode(cs[k + 1..]), Encode(ds[k + 1..]));
  }

  lemma EncodedAround(cs: seq<Scalar>, k: nat)
    requires k < |cs|
    ensures Encode(cs) == Encode(cs[..k]) + (EncodeScalar(cs[k]) + Encode(cs[k + 1..]))
  {
    assert cs == cs[..k] + cs[k..];
    EncodeConcat(cs[..k], cs[k..]);
    assert cs[k..][1..] == cs[k + 1..];
  }

  lemma Examples()
    ensures EncodeScalar(0x41) == [0x41]
    ensures EncodeScalar(0x391) == [0xCE, 0x91]
    ensures EncodeScalar(0x2262) == [0xE2, 0x89, 0xA2]
    ensures EncodeScalar(0xFEFF) == [0xEF, 0xBB, 0xBF]
    ensures EncodeScalar(0x233B4) == [0xF0, 0xA3, 0x8E, 0xB4]
  {
  }
}
