/** Truncation of UTF-8 text at byte and character budgets. */
module TextCuts {
  import opened Bytes
  import opened Utf8

  // The marker `…`, U+2026.
  const ELLIPSIS: seq<Byte> := [0xE2, 0x80, 0xA6]

  function Min(a: nat, b: nat): nat { if a < b then a else b }

  // `r` cuts `s` at the last valid place not after `budget`.
  ghost predicate LongestPrefix(s: seq<Byte>, budget: nat, r: nat) {
    && r <= Min(budget, |s|)
    && Valid(s[..r]) && Valid(s[r..])
    && forall j :: r < j <= Min(budget, |s|) ==> !Valid(s[..j])
  }

  // Between `lo` and `hi` no cut leaves valid text, since the one-byte test fails there.
  lemma NoCutBetween(s: seq<Byte>, lo: nat, hi: nat)
    requires Valid(s) && lo <= hi <= |s| + 1
    requires forall j :: lo <= j < hi ==> !IsBoundary(s, j)
    ensures forall j :: lo <= j < hi ==> j <= |s| && !Valid(s[..j])
  {
    forall j | lo <= j < hi ensures j <= |s| && !Valid(s[..j]) {
      BoundaryExact(s, j);
    }
  }

  // `head`: the longest valid prefix within the budget, at most 3 bytes short of it.
  method Head(s: seq<Byte>, maxBytes: nat) returns (r: seq<Byte>)
    requires Valid(s)
    ensures |r| <= |s| && r == s[..|r|] && LongestPrefix(s, maxBytes, |r|)
    ensures Min(maxBytes, |s|) - |r| <= 3
  {
    var end := Min(maxBytes, |s|);
    ghost var lo, hi := BoundariesNearby(s, end);
    while end > 0 && !IsBoundary(s, end)
      invariant lo <= end <= Min(maxBytes, |s|)
      invariant forall j :: end < j <= Min(maxBytes, |s|) ==> !IsBoundary(s, j)
    {
      end := end - 1;
    }
    BoundaryExact(s, end);
    NoCutBetween(s, end + 1, Min(maxBytes, |s|) + 1);
    r := s[..end];
  }

  // `char_boundary_at_or_before`
  method CharBoundaryAtOrBefore(s: seq<Byte>, n: nat) returns (i: nat)
    requires Valid(s)
    ensures LongestPrefix(s, n, i)
    ensures Min(n, |s|) - i <= 3
  {
    if n >= |s| {
      assert s[..|s|] == s && s[|s|..] == [];
      return |s|;
    }
    i := n;
    ghost var lo, hi := BoundariesNearby(s, n);
    while i > 0 && !IsBoundary(s, i)
      invariant lo <= i <= n
      invariant forall j :: i < j <= n ==> !IsBoundary(s, j)
    {
      i := i - 1;
    }
    BoundaryExact(s, i);
    NoCutBetween(s, i + 1, n + 1);
  }

  // `char_boundary_at_or_after`: the first valid cut not before `n`.
  method CharBoundaryAtOrAfter(s: seq<Byte>, n: nat) returns (i: nat)
    requires Valid(s)
    ensures Min(n, |s|) <= i <= |s| && i - Min(n, |s|) <= 3
    ensures Valid(s[..i]) && Valid(s[i..])
    ensures forall j :: Min(n, |s|) <= j < i ==> !Valid(s[..j])
  {
    if n >= |s| {
      assert s[..|s|] == s && s[|s|..] == [];
      return |s|;
    }
    i := n;
    ghost var lo, hi := BoundariesNearby(s, n);
    while i < |s| && !IsBoundary(s, i)
      invariant n <= i <= hi
      invariant forall j :: n <= j < i ==> !IsBoundary(s, j)
    {
      i := i + 1;
    }
    BoundaryExact(s, i);
    NoCutBetween(s, n, i);
  }

  // `ellipsize`: valid text; within the budget if and only if the text already was or
  // the budget has room for the marker.
  method Ellipsize(s: seq<Byte>, maxBytes: nat) returns (r: seq<Byte>)
    requires Valid(s)
    ensures Valid(r)
    ensures |r| <= maxBytes <==> |s| <= maxBytes || 3 <= maxBytes
    ensures |s| <= maxBytes ==> r == s
    ensures |s| > maxBytes ==>
              exists k: nat :: LongestPrefix(s, if maxBytes < 3 then 0 else maxBytes - 3, k)
                && r == s[..k] + [0xE2, 0x80, 0xA6]
  {
    if |s| <= maxBytes {
      return s;
    }
    var kept := Head(s, if maxBytes < |ELLIPSIS| then 0 else maxBytes - |ELLIPSIS|);
    assert CharLen(ELLIPSIS) == 3 by { assert TailAt(ELLIPSIS, 1) && TailAt(ELLIPSIS, 2); }
    assert ELLIPSIS[3..] == [];
    ValidConcat(kept, ELLIPSIS);
    r := kept + ELLIPSIS;
  }

  // -------------------------------------------------------------- character budgets

  // `truncate_head`: the first `budget` characters and a note on how many were cut.
  function TruncateHead(s: seq<Byte>, budget: nat, note: nat -> seq<Byte>): seq<Byte>
    requires Valid(s)
  {
    var total := |Decode(s)|;
    if total <= budget then s else Encode(Decode(s)[..budget]) + note(total - budget)
  }

  lemma SplitText(s: seq<Byte>, n: nat)
    requires Valid(s) && n <= |Decode(s)|
    ensures s == Encode(Decode(s)[..n]) + Encode(Decode(s)[n..])
  {
    var cs := Decode(s);
    assert cs == cs[..n] + cs[n..];
    EncodeConcat(cs[..n], cs[n..]);
    EncodeOfDecode(s);
  }

  // Cutting between characters cuts between bytes.
  lemma CutAtCharacter(s: seq<Byte>, n: nat) returns (k: nat)
    requires Valid(s) && n <= |Decode(s)|
    ensures k <= |s| && s[..k] == Encode(Decode(s)[..n])
    ensures Valid(s[..k]) && Valid(s[k..])
    ensures Heads(s[..k]) == n && Heads(s[k..]) == |Decode(s)| - n
  {
    var first, last := Decode(s)[..n], Decode(s)[n..];
    SplitText(s, n);
    EncodedCount(first);
    EncodedCount(last);
    k := |Encode(first)|;
    SlicesOfConcat(Encode(first), Encode(last), s);
  }

  lemma SlicesOfConcat(a: seq<Byte>, b: seq<Byte>, s: seq<Byte>)
    requires s == a + b
    ensures s[..|a|] == a && s[|a|..] == b
  {
  }

  lemma EncodedCount(cs: seq<Scalar>)
    ensures Valid(Encode(cs)) && Heads(Encode(cs)) == |cs|
  {
    DecodeOfEncode(cs);
    CountIsHeads(Encode(cs));
  }

  // Over budget, the result is a valid prefix of exactly `budget` characters (counted
  // byte by byte) and a note; kept and dropped characters add up to the original.
  lemma TruncateHeadKeeps(s: seq<Byte>, budget: nat, note: nat -> seq<Byte>) returns (k: nat)
    requires Valid(s)
    ensures Heads(s) <= budget ==> TruncateHead(s, budget, note) == s
    ensures Heads(s) > budget ==>
              && k <= |s| && Valid(s[..k]) && Valid(s[k..])
              && Heads(s[..k]) == budget && Heads(s[k..]) + budget == Heads(s)
              && TruncateHead(s, budget, note) == s[..k] + note(Heads(s[k..]))
  {
    CountIsHeads(s);
    k := 0;
    if Heads(s) > budget {
      k := CutAtCharacter(s, budget);
    }
  }

  // `truncate_head_bytes`: the byte sibling; kept and dropped bytes add up.
  method TruncateHeadBytes(s: seq<Byte>, maxBytes: nat, note: nat -> seq<Byte>) returns (r: seq<Byte>)
    requires Valid(s)
    ensures |s| <= maxBytes ==> r == s
    ensures |s| > maxBytes ==>
              exists k: nat :: LongestPrefix(s, maxBytes, k) && r == s[..k] + note(|s[k..]|) && k + |s[k..]| == |s|
  {
    if |s| <= maxBytes {
      return s;
    }
    var kept := Head(s, maxBytes);
    r := kept + note(|s| - |kept|);
    assert |s[|kept|..]| == |s| - |kept|;
  }
}
