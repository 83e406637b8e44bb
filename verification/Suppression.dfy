/**
 Greedy overlap suppression: rank the boxes, then keep each one that overlaps no box
 kept so far. Used for text regions (by confidence, then text length; all kept) and
 for buttons (by area; at most twenty kept).
 */
module Suppression {

  datatype Box = Box(x: int, y: int, w: int, h: int, conf: int, text: string)

  // Ranks are compared lexicographically.
  type Rank = (int, int)

  predicate Below(a: Rank, b: Rank) {
    a.0 < b.0 || (a.0 == b.0 && a.1 < b.1)
  }

  function RegionRank(b: Box): Rank { (b.conf, |b.text|) }

  function ButtonRank(b: Box): Rank { (b.w * b.h, 0) }

  const REGION_MARGIN := 3
  const BUTTON_MARGIN := 5
  const MAX_BUTTONS := 20

  // ------------------------------------------------------------------------- overlap

  function Max(a: int, b: int): int { if a > b then a else b }

  function Min(a: int, b: int): int { if a < b then a else b }

  // `_boxes_overlap`
  predicate Overlap(a: Box, b: Box, margin: int) {
    var ox := Max(0, Min(a.x + a.w + margin, b.x + b.w + margin) - Max(a.x - margin, b.x - margin));
    var oy := Max(0, Min(a.y + a.h + margin, b.y + b.h + margin) - Max(a.y - margin, b.y - margin));
    ox > 0 && oy > 0
  }

  // A point strictly inside the box grown by the margin on every side.
  predicate Within(b: Box, margin: int, px: real, py: real) {
    && (b.x - margin) as real < px < (b.x + b.w + margin) as real
    && (b.y - margin) as real < py < (b.y + b.h + margin) as real
  }

  // Two boxes overlap exactly when the grown boxes have an inner point in common.
  lemma OverlapIsCommonPoint(a: Box, b: Box, margin: int)
    ensures Overlap(a, b, margin) <==> exists px, py :: Within(a, margin, px, py) && Within(b, margin, px, py)
  {
    var lx, hx := Max(a.x - margin, b.x - margin), Min(a.x + a.w + margin, b.x + b.w + margin);
    var ly, hy := Max(a.y - margin, b.y - margin), Min(a.y + a.h + margin, b.y + b.h + margin);
    if Overlap(a, b, margin) {
      var px, py := (lx + hx) as real / 2.0, (ly + hy) as real / 2.0;
      assert lx as real < px < hx as real && ly as real < py < hy as real;
      assert Within(a, margin, px, py) && Within(b, margin, px, py);
    }
    forall px, py | Within(a, margin, px, py) && Within(b, margin, px, py) ensures Overlap(a, b, margin) {
      assert lx as real < px < hx as real && ly as real < py < hy as real;
    }
  }

  // --------------------------------------------------------------- ranking, stably

  predicate Ranked(xs: seq<Box>, rank: Box -> Rank) {
    forall i :: 0 < i < |xs| ==> !Below(rank(xs[i - 1]), rank(xs[i]))
  }

  // The library's stable sort, highest rank first: equal ranks stay in order.
  function Insert(b: Box, xs: seq<Box>, rank: Box -> Rank): seq<Box> {
    if xs == [] || !Below(rank(b), rank(xs[0])) then [b] + xs else [xs[0]] + Insert(b, xs[1..], rank)
  }

  function Sorted(xs: seq<Box>, rank: Box -> Rank): seq<Box> {
    if xs == [] then [] else Insert(xs[0], Sorted(xs[1..], rank), rank)
  }

  lemma {:induction false} InsertRanked(b: Box, xs: seq<Box>, rank: Box -> Rank)
    requires Ranked(xs, rank)
    ensures Ranked(Insert(b, xs, rank), rank)
    ensures multiset(Insert(b, xs, rank)) == multiset{b} + multiset(xs)
  {
    if xs != [] {
      assert xs == [xs[0]] + xs[1..];
      if Below(rank(b), rank(xs[0])) {
        assert Ranked(xs[1..], rank) by {
          forall i | 0 < i < |xs[1..]| ensures !Below(rank(xs[1..][i - 1]), rank(xs[1..][i])) {
            assert xs[1..][i - 1] == xs[i] && xs[1..][i] == xs[i + 1];
          }
        }
        InsertRanked(b, xs[1..], rank);
        InsertHead(b, xs[1..], rank);
        assert |xs| > 1 ==> !Below(rank(xs[0]), rank(xs[1]));
      }
    }
  }

  lemma InsertHead(b: Box, xs: seq<Box>, rank: Box -> Rank)
    ensures Insert(b, xs, rank) != [] && (Insert(b, xs, rank)[0] == b || (xs != [] && Insert(b, xs, rank)[0] == xs[0]))
  {
  }

  lemma {:induction false} SortedRanked(xs: seq<Box>, rank: Box -> Rank)
    ensures Ranked(Sorted(xs, rank), rank) && multiset(Sorted(xs, rank)) == multiset(xs)
  {
    if xs != [] {
      SortedRanked(xs[1..], rank);
      InsertRanked(xs[0], Sorted(xs[1..], rank), rank);
      assert xs == [xs[0]] + xs[1..];
    }
  }

  // The boxes of one rank, in order.
  function OfRank(xs: seq<Box>, rank: Box -> Rank, r: Rank): seq<Box> {
    if xs == [] then [] else (if rank(xs[0]) == r then [xs[0]] else []) + OfRank(xs[1..], rank, r)
  }

  lemma {:induction false} InsertStable(b: Box, xs: seq<Box>, rank: Box -> Rank, r: Rank)
    ensures OfRank(Insert(b, xs, rank), rank, r) == (if rank(b) == r then [b] else []) + OfRank(xs, rank, r)
  {
    if xs == [] || !Below(rank(b), rank(xs[0])) {
      assert ([b] + xs)[1..] == xs;
    } else {
      var rest := Insert(b, xs[1..], rank);
      InsertStable(b, xs[1..], rank, r);
      assert ([xs[0]] + rest)[1..] == rest;
    }
  }

  // The sort is stable: boxes of equal rank stay in their order.
  lemma {:induction false} SortedKeepsTies(xs: seq<Box>, rank: Box -> Rank, r: Rank)
    ensures OfRank(Sorted(xs, rank), rank, r) == OfRank(xs, rank, r)
  {
    if xs != [] {
      SortedKeepsTies(xs[1..], rank, r);
      InsertStable(xs[0], Sorted(xs[1..], rank), rank, r);
    }
  }

  // Sorting what is sorted changes nothing.
  lemma {:induction false} SortedStable(xs: seq<Box>, rank: Box -> Rank)
    requires Ranked(xs, rank)
    ensures Sorted(xs, rank) == xs
  {
    if xs != [] {
      forall i | 0 < i < |xs[1..]| ensures !Below(rank(xs[1..][i - 1]), rank(xs[1..][i])) {
        assert xs[1..][i - 1] == xs[i] && xs[1..][i] == xs[i + 1];
      }
      SortedStable(xs[1..], rank);
      assert xs == [xs[0]] + xs[1..];
    }
  }

  lemma {:induction false} RankedFar(xs: seq<Box>, rank: Box -> Rank, i: nat, j: nat)
    requires Ranked(xs, rank) && i <= j < |xs|
    ensures !Below(rank(xs[i]), rank(xs[j]))
    decreases j - i
  {
    if i < j { RankedFar(xs, rank, i, j - 1); }
  }

  // ------------------------------------------------------------------ greedy selection

  predicate Hits(b: Box, kept: seq<Box>, margin: int) {
    exists k :: 0 <= k < |kept| && Overlap(b, kept[k], margin)
  }

  function Keep(xs: seq<Box>, margin: int): seq<Box> {
    if xs == [] then []
    else
      var kept, b := Keep(xs[..|xs| - 1], margin), xs[|xs| - 1];
      if Hits(b, kept, margin) then kept else kept + [b]
  }

  predicate Apart(kept: seq<Box>, margin: int) {
    forall i, j :: 0 <= i < j < |kept| ==> !Overlap(kept[i], kept[j], margin)
  }

  // Every box is kept, or overlaps a kept box that comes earlier in the ranking.
  ghost predicate Covered(xs: seq<Box>, kept: seq<Box>, rank: Box -> Rank, margin: int) {
    forall b :: b in xs ==> b in kept || Beaten(b, kept, rank, margin)
  }

  predicate Beaten(b: Box, kept: seq<Box>, rank: Box -> Rank, margin: int) {
    exists k :: 0 <= k < |kept| && Overlap(b, kept[k], margin) && !Below(rank(kept[k]), rank(b))
  }

  lemma OverlapSymmetric(a: Box, b: Box, margin: int)
    ensures Overlap(a, b, margin) == Overlap(b, a, margin)
  {
  }

  ghost predicate KeptOk(xs: seq<Box>, kept: seq<Box>, rank: Box -> Rank, margin: int) {
    && Apart(kept, margin) && Covered(xs, kept, rank, margin) && Ranked(kept, rank)
    && (forall b :: b in kept ==> b in xs)
  }

  // A box that hits a kept one is covered by it.
  lemma SkipOk(xs: seq<Box>, kept: seq<Box>, b: Box, rank: Box -> Rank, margin: int)
    requires KeptOk(xs, kept, rank, margin) && Hits(b, kept, margin)
    requires forall c :: c in xs ==> !Below(rank(c), rank(b))
    ensures KeptOk(xs + [b], kept, rank, margin)
  {
    var k :| 0 <= k < |kept| && Overlap(b, kept[k], margin);
    assert kept[k] in xs;
    assert Beaten(b, kept, rank, margin);
  }

  // A box that hits none is kept.
  lemma AppendOk(xs: seq<Box>, kept: seq<Box>, b: Box, rank: Box -> Rank, margin: int)
    requires KeptOk(xs, kept, rank, margin) && !Hits(b, kept, margin)
    requires forall c :: c in xs ==> !Below(rank(c), rank(b))
    ensures KeptOk(xs + [b], kept + [b], rank, margin)
  {
    forall k | 0 <= k < |kept| ensures !Overlap(kept[k], b, margin) && !Below(rank(kept[k]), rank(b)) {
      OverlapSymmetric(kept[k], b, margin);
      assert kept[k] in xs;
    }
    forall c | Beaten(c, kept, rank, margin) ensures Beaten(c, kept + [b], rank, margin) {
      var k :| 0 <= k < |kept| && Overlap(c, kept[k], margin) && !Below(rank(kept[k]), rank(c));
      assert (kept + [b])[k] == kept[k];
    }
  }

  // What the loop has kept of a ranked list.
  lemma {:induction false} KeepOk(xs: seq<Box>, rank: Box -> Rank, margin: int)
    requires Ranked(xs, rank)
    ensures KeptOk(xs, Keep(xs, margin), rank, margin)
  {
    if xs != [] {
      var init, b := xs[..|xs| - 1], xs[|xs| - 1];
      KeepOk(init, rank, margin);
      assert xs == init + [b];
      forall c | c in init ensures !Below(rank(c), rank(b)) {
        var i :| 0 <= i < |init| && init[i] == c;
        RankedFar(xs, rank, i, |xs| - 1);
      }
      if Hits(b, Keep(init, margin), margin) {
        SkipOk(init, Keep(init, margin), b, rank, margin);
      } else {
        AppendOk(init, Keep(init, margin), b, rank, margin);
      }
    }
  }

  lemma LastMisses(xs: seq<Box>, margin: int)
    requires Apart(xs, margin) && xs != []
    ensures Apart(xs[..|xs| - 1], margin)
    ensures !Hits(xs[|xs| - 1], xs[..|xs| - 1], margin)
  {
    var init, b := xs[..|xs| - 1], xs[|xs| - 1];
    forall k | 0 <= k < |init| ensures !Overlap(b, init[k], margin) {
      assert !Overlap(xs[k], b, margin);
      OverlapSymmetric(xs[k], b, margin);
    }
  }

  lemma KeepOneMore(init: seq<Box>, b: Box, margin: int)
    requires Keep(init, margin) == init && !Hits(b, init, margin)
    ensures Keep(init + [b], margin) == init + [b]
  {
    assert (init + [b])[..|init|] == init;
  }

  // Boxes that are apart are all kept.
  lemma {:induction false} KeepApart(xs: seq<Box>, margin: int)
    requires Apart(xs, margin)
    ensures Keep(xs, margin) == xs
    decreases |xs|
  {
    if xs != [] {
      var init, b := xs[..|xs| - 1], xs[|xs| - 1];
      LastMisses(xs, margin);
      KeepApart(init, margin);
      KeepOneMore(init, b, margin);
      assert xs == init + [b];
    }
  }

  // --------------------------------------------------------------------- the two uses

  // `_merge_overlapping`, and the end of `find_buttons` before its cut.
  function Select(xs: seq<Box>, rank: Box -> Rank, margin: int): seq<Box> {
    Keep(Sorted(xs, rank), margin)
  }

  // For every input: what is kept is pairwise apart and highest rank first; every
  // input box is kept or overlaps a kept box ranked at least as high; and selecting
  // from the selection changes nothing.
  lemma SelectExact(xs: seq<Box>, rank: Box -> Rank, margin: int)
    ensures var kept := Select(xs, rank, margin);
            && Apart(kept, margin) && Ranked(kept, rank) && Covered(xs, kept, rank, margin)
            && (forall b :: b in kept ==> b in xs)
            && Select(kept, rank, margin) == kept
  {
    var sorted, kept := Sorted(xs, rank), Select(xs, rank, margin);
    SortedRanked(xs, rank);
    KeepOk(sorted, rank, margin);
    forall b ensures b in xs <==> b in sorted {
      assert b in xs <==> b in multiset(xs);
      assert b in sorted <==> b in multiset(sorted);
    }
    SortedStable(kept, rank);
    KeepApart(kept, margin);
  }

  function Cut(xs: seq<Box>): seq<Box> {
    if |xs| <= MAX_BUTTONS then xs else xs[..MAX_BUTTONS]
  }

  function Buttons(xs: seq<Box>): seq<Box> {
    Cut(Select(xs, ButtonRank, BUTTON_MARGIN))
  }

  // A cut selection is a selection of itself.
  lemma CutStable(all: seq<Box>, rank: Box -> Rank, margin: int)
    requires Ranked(all, rank) && Apart(all, margin)
    ensures Ranked(Cut(all), rank) && Apart(Cut(all), margin) && Select(Cut(all), rank, margin) == Cut(all)
  {
    var kept := Cut(all);
    assert forall i :: 0 <= i < |kept| ==> kept[i] == all[i];
    forall i | 0 < i < |kept| ensures !Below(rank(kept[i - 1]), rank(kept[i])) {
      assert kept[i - 1] == all[i - 1] && kept[i] == all[i];
    }
    SortedStable(kept, rank);
    KeepApart(kept, margin);
  }

  // The cut to twenty buttons keeps all this: a button not returned overlaps one that
  // is at least as large, or all twenty returned ones are at least as large.
  lemma ButtonsExact(xs: seq<Box>)
    ensures var kept := Buttons(xs);
            && |kept| <= MAX_BUTTONS && Apart(kept, BUTTON_MARGIN) && Buttons(kept) == kept
            && (forall b :: b in kept ==> b in xs)
            && (forall b :: b in xs ==>
                  || b in kept || Beaten(b, kept, ButtonRank, BUTTON_MARGIN)
                  || (|kept| == MAX_BUTTONS && forall k :: 0 <= k < |kept| ==> kept[k].w * kept[k].h >= b.w * b.h))
  {
    var all, kept := Select(xs, ButtonRank, BUTTON_MARGIN), Buttons(xs);
    SelectExact(xs, ButtonRank, BUTTON_MARGIN);
    CutStable(all, ButtonRank, BUTTON_MARGIN);
    forall b | b in xs && b !in kept && !Beaten(b, kept, ButtonRank, BUTTON_MARGIN)
      ensures |kept| == MAX_BUTTONS && forall k :: 0 <= k < |kept| ==> kept[k].w * kept[k].h >= b.w * b.h
    {
      CutOnes(all, b);
    }
  }

  lemma AreaOrder(a: Box, b: Box)
    requires !Below(ButtonRank(a), ButtonRank(b))
    ensures a.w * a.h >= b.w * b.h
  {
    var p, q := a.w * a.h, b.w * b.h;
    assert ButtonRank(a) == (p, 0) && ButtonRank(b) == (q, 0);
    assert Below((p, 0), (q, 0)) <==> p < q;
  }

  lemma CutOnes(all: seq<Box>, b: Box)
    requires Ranked(all, ButtonRank)
    requires b in all || Beaten(b, all, ButtonRank, BUTTON_MARGIN)
    requires b !in Cut(all) && !Beaten(b, Cut(all), ButtonRank, BUTTON_MARGIN)
    ensures |Cut(all)| == MAX_BUTTONS
    ensures forall k :: 0 <= k < MAX_BUTTONS ==> Cut(all)[k].w * Cut(all)[k].h >= b.w * b.h
  {
    var kept := Cut(all);
    var i :| 0 <= i < |all| && !Below(ButtonRank(all[i]), ButtonRank(b))
             && (all[i] == b || Overlap(b, all[i], BUTTON_MARGIN));
    assert forall j :: 0 <= j < |kept| ==> kept[j] == all[j];
    forall k | 0 <= k < MAX_BUTTONS ensures kept[k].w * kept[k].h >= b.w * b.h {
      RankedFar(all, ButtonRank, k, i);
      assert kept[k] == all[k];
      AreaOrder(all[k], all[i]);
      AreaOrder(all[i], b);
    }
  }

  // The loop of both callers, over the boxes already sorted: `kept` grows by append.
  method KeepGreedily(sorted: seq<Box>, margin: int) returns (kept: seq<Box>)
    ensures kept == Keep(sorted, margin)
  {
    kept := [];
    for i := 0 to |sorted|
      invariant kept == Keep(sorted[..i], margin)
    {
      var hit := AnyOverlap(sorted[i], kept, margin);
      assert sorted[..i + 1][..i] == sorted[..i];
      if !hit {
        kept := kept + [sorted[i]];
      }
    }
    assert sorted[..|sorted|] == sorted;
  }

  // `_merge_overlapping`: by confidence, then text length, highest first. Every region
  // is kept or overlaps, within a margin of 3, a kept one that is at least as high.
  method MergeOverlapping(regions: seq<Box>) returns (kept: seq<Box>)
    ensures kept == Select(regions, RegionRank, REGION_MARGIN)
    ensures Apart(kept, 3) && forall b :: b in kept ==> b in regions
    ensures forall i, j :: 0 <= i < j < |kept| ==>
              kept[i].conf > kept[j].conf || (kept[i].conf == kept[j].conf && |kept[i].text| >= |kept[j].text|)
    ensures forall r :: r in regions ==>
              || r in kept
              || (exists i :: 0 <= i < |kept| && Overlap(r, kept[i], 3)
                    && (kept[i].conf > r.conf || (kept[i].conf == r.conf && |kept[i].text| >= |r.text|)))
    ensures Select(kept, RegionRank, REGION_MARGIN) == kept
  {
    kept := KeepGreedily(Sorted(regions, RegionRank), REGION_MARGIN);
    SelectExact(regions, RegionRank, REGION_MARGIN);
    forall i, j | 0 <= i < j < |kept|
      ensures kept[i].conf > kept[j].conf || (kept[i].conf == kept[j].conf && |kept[i].text| >= |kept[j].text|)
    {
      RankedFar(kept, RegionRank, i, j);
      RegionOrder(kept[i], kept[j]);
    }
    forall r | r in regions && r !in kept
      ensures exists i :: 0 <= i < |kept| && Overlap(r, kept[i], 3)
                && (kept[i].conf > r.conf || (kept[i].conf == r.conf && |kept[i].text| >= |r.text|))
    {
      assert Beaten(r, kept, RegionRank, REGION_MARGIN);
      var i :| 0 <= i < |kept| && Overlap(r, kept[i], REGION_MARGIN) && !Below(RegionRank(kept[i]), RegionRank(r));
      RegionOrder(kept[i], r);
    }
  }

  lemma RegionOrder(a: Box, b: Box)
    ensures !Below(RegionRank(a), RegionRank(b)) <==> a.conf > b.conf || (a.conf == b.conf && |a.text| >= |b.text|)
  {
  }

  // The end of `find_buttons`: largest first, at most twenty, apart within a margin of 5.
  method DedupButtons(buttons: seq<Box>) returns (kept: seq<Box>)
    ensures kept == Buttons(buttons) && |kept| <= 20
    ensures Apart(kept, 5) && forall b :: b in kept ==> b in buttons
    ensures forall i, j :: 0 <= i < j < |kept| ==> kept[i].w * kept[i].h >= kept[j].w * kept[j].h
    ensures forall b :: b in buttons ==>
              || b in kept
              || (exists i :: 0 <= i < |kept| && Overlap(b, kept[i], 5) && kept[i].w * kept[i].h >= b.w * b.h)
              || (|kept| == 20 && forall i :: 0 <= i < |kept| ==> kept[i].w * kept[i].h >= b.w * b.h)
  {
    var merged := KeepGreedily(Sorted(buttons, ButtonRank), BUTTON_MARGIN);
    kept := Cut(merged);
    ButtonsExact(buttons);
    ButtonsFall(buttons, kept);
    forall b | b in buttons && b !in kept && Beaten(b, kept, ButtonRank, BUTTON_MARGIN)
      ensures exists i :: 0 <= i < |kept| && Overlap(b, kept[i], 5) && kept[i].w * kept[i].h >= b.w * b.h
    {
      var i :| 0 <= i < |kept| && Overlap(b, kept[i], BUTTON_MARGIN) && !Below(ButtonRank(kept[i]), ButtonRank(b));
      AreaOrder(kept[i], b);
    }
  }

  lemma ButtonsFall(buttons: seq<Box>, kept: seq<Box>)
    requires kept == Buttons(buttons)
    ensures forall i, j :: 0 <= i < j < |kept| ==> kept[i].w * kept[i].h >= kept[j].w * kept[j].h
  {
    var all := Select(buttons, ButtonRank, BUTTON_MARGIN);
    SelectExact(buttons, ButtonRank, BUTTON_MARGIN);
    CutStable(all, ButtonRank, BUTTON_MARGIN);
    forall i, j | 0 <= i < j < |kept| ensures kept[i].w * kept[i].h >= kept[j].w * kept[j].h {
      RankedFar(kept, ButtonRank, i, j);
      AreaOrder(kept[i], kept[j]);
    }
  }

  method AnyOverlap(b: Box, kept: seq<Box>, margin: int) returns (hit: bool)
    ensures hit <==> Hits(b, kept, margin)
  {
    for k := 0 to |kept|
      invariant forall j :: 0 <= j < k ==> !Overlap(b, kept[j], margin)
    {
      if Overlap(b, kept[k], margin) {
        return true;
      }
    }
    return false;
  }
}
