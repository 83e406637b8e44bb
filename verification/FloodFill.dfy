/**
 The flood fills of the button detector: a stack-driven search for the connected
 component of a seed in a Boolean mask, run from a grid of sample points.
 */
module FloodFill {

  datatype Point = Point(x: int, y: int)

  datatype Box = Box(minX: int, maxX: int, minY: int, maxY: int)

  // The mask: `rows[y][x]`.
  datatype Mask = Mask(width: nat, rows: seq<seq<bool>>) {
    ghost predicate Ok() {
      forall y :: 0 <= y < |rows| ==> |rows[y]| == width
    }

    predicate Inside(p: Point) {
      0 <= p.x < width && 0 <= p.y < |rows|
    }

    predicate Set(p: Point)
      requires Ok()
    {
      Inside(p) && rows[p.y][p.x]
    }

    // All points that are set.
    ghost function Cells(): (s: set<Point>)
      requires Ok()
      ensures forall p :: p in s <==> Set(p)
    {
      set x, y | 0 <= x < width && 0 <= y < |rows| && rows[y][x] :: Point(x, y)
    }
  }

  // ----------------------------------------------------------- what a component is

  function Distance(a: int, b: int): nat {
    if a < b then b - a else a - b
  }

  predicate Adjacent(p: Point, q: Point): (r: bool)
    ensures r <==> Distance(p.x, q.x) + Distance(p.y, q.y) == 1
  {
    (p.x == q.x && (p.y == q.y + 1 || q.y == p.y + 1)) || (p.y == q.y && (p.x == q.x + 1 || q.x == p.x + 1))
  }

  // A walk through set cells, each next to the one before.
  ghost predicate IsPath(m: Mask, path: seq<Point>)
    requires m.Ok()
  {
    && path != []
    && (forall k :: 0 <= k < |path| ==> m.Set(path[k]))
    && (forall k :: 0 < k < |path| ==> Adjacent(path[k - 1], path[k]))
  }

  ghost predicate Connected(m: Mask, p: Point, q: Point)
    requires m.Ok()
  {
    exists path :: IsPath(m, path) && path[0] == p && path[|path| - 1] == q
  }

  ghost function Component(m: Mask, p: Point): set<Point>
    requires m.Ok()
  {
    set q | q in m.Cells() && Connected(m, p, q)
  }

  // A set of cells that is a union of whole components.
  ghost predicate Closed(m: Mask, s: set<Point>)
    requires m.Ok()
  {
    s <= m.Cells() && forall p, q :: p in s && m.Set(q) && Adjacent(p, q) ==> q in s
  }

  ghost predicate IsBoxOf(b: Box, s: set<Point>) {
    && (forall p :: p in s ==> b.minX <= p.x <= b.maxX && b.minY <= p.y <= b.maxY)
    && (exists p :: p in s && p.x == b.minX) && (exists p :: p in s && p.x == b.maxX)
    && (exists p :: p in s && p.y == b.minY) && (exists p :: p in s && p.y == b.maxY)
  }

  lemma ConnectedSelf(m: Mask, p: Point)
    requires m.Ok() && m.Set(p)
    ensures Connected(m, p, p)
  {
    assert IsPath(m, [p]);
  }

  lemma ConnectedStep(m: Mask, p: Point, q: Point, r: Point)
    requires m.Ok() && Connected(m, p, q) && m.Set(r) && Adjacent(q, r)
    ensures Connected(m, p, r)
  {
    var path :| IsPath(m, path) && path[0] == p && path[|path| - 1] == q;
    assert IsPath(m, path + [r]);
  }

  // A closed set contains all of a walk once it contains one end of it.
  lemma {:induction false} PathStays(m: Mask, s: set<Point>, path: seq<Point>)
    requires m.Ok() && Closed(m, s) && IsPath(m, path)
    requires path[0] in s || path[|path| - 1] in s
    ensures path[0] in s && path[|path| - 1] in s
    decreases |path|
  {
    if |path| > 1 {
      assert Adjacent(path[0], path[1]) && Adjacent(path[1], path[0]);
      if path[0] in s {
        assert IsPath(m, path[1..]);
        PathStays(m, s, path[1..]);
      } else {
        assert IsPath(m, path[1..]);
        PathStays(m, s, path[1..]);
      }
    }
  }

  lemma ComponentInside(m: Mask, s: set<Point>, p: Point)
    requires m.Ok() && Closed(m, s) && p in s
    ensures Component(m, p) <= s
  {
    forall q | q in Component(m, p) ensures q in s {
      var path :| IsPath(m, path) && path[0] == p && path[|path| - 1] == q;
      PathStays(m, s, path);
    }
  }

  lemma ComponentApart(m: Mask, s: set<Point>, p: Point)
    requires m.Ok() && Closed(m, s) && p !in s
    ensures Component(m, p) !! s
  {
    forall q | q in Component(m, p) ensures q !in s {
      var path :| IsPath(m, path) && path[0] == p && path[|path| - 1] == q;
      if q in s { PathStays(m, s, path); }
    }
  }

  // --------------------------------------------------------------- the visited array

  // The points marked in `visited`, which is indexed by row, then column.
  ghost function Marked(visited: array2<bool>): (s: set<Point>)
    reads visited
    ensures forall p :: p in s <==> 0 <= p.x < visited.Length1 && 0 <= p.y < visited.Length0 && visited[p.y, p.x]
  {
    set x, y | 0 <= x < visited.Length1 && 0 <= y < visited.Length0 && visited[y, x] :: Point(x, y)
  }

  ghost predicate SameShape(m: Mask, visited: array2<bool>) {
    visited.Length0 == |m.rows| && visited.Length1 == m.width
  }

  // What the search has established: `before` was marked at the start, `added` since.
  ghost predicate Searching(m: Mask, seed: Point, before: set<Point>, added: set<Point>, stack: seq<Point>)
    requires m.Ok()
  {
    && before !! added && added <= m.Cells()
    && (seed in before || seed in added || seed in stack)
    && (forall p :: p in added ==> Connected(m, seed, p))
    && (forall p :: p in stack ==> p == seed || Touches(added, p))
    && (forall p, q :: p in added && m.Set(q) && Adjacent(p, q) ==> q in before || q in added || q in stack)
  }

  ghost predicate Touches(s: set<Point>, p: Point) {
    exists q :: q in s && Adjacent(q, p)
  }

  // The extremes so far are those of the seed or of a marked point.
  ghost predicate Bounding(b: Box, seed: Point, added: set<Point>) {
    && b.minX <= seed.x <= b.maxX && b.minY <= seed.y <= b.maxY
    && (forall p :: p in added ==> b.minX <= p.x <= b.maxX && b.minY <= p.y <= b.maxY)
    && (b.minX == seed.x || exists p :: p in added && p.x == b.minX)
    && (b.maxX == seed.x || exists p :: p in added && p.x == b.maxX)
    && (b.minY == seed.y || exists p :: p in added && p.y == b.minY)
    && (b.maxY == seed.y || exists p :: p in added && p.y == b.maxY)
  }

  function Neighbours(p: Point): seq<Point> {
    [Point(p.x - 1, p.y), Point(p.x + 1, p.y), Point(p.x, p.y - 1), Point(p.x, p.y + 1)]
  }

  lemma NeighboursExact(p: Point, q: Point)
    ensures q in Neighbours(p) <==> Adjacent(p, q)
  {
    var n := Neighbours(p);
    assert Adjacent(p, q) ==> q == n[0] || q == n[1] || q == n[2] || q == n[3];
  }

  // Popping a point that is off the mask or already marked loses nothing.
  lemma SkipKeeps(m: Mask, seed: Point, before: set<Point>, added: set<Point>, stack: seq<Point>)
    requires m.Ok() && stack != [] && Searching(m, seed, before, added, stack) && m.Set(seed)
    requires var p := stack[|stack| - 1]; !m.Set(p) || p in before || p in added
    ensures Searching(m, seed, before, added, stack[..|stack| - 1])
  {
    var p, rest := stack[|stack| - 1], stack[..|stack| - 1];
    assert forall q :: q in stack <==> q in rest || q == p;
  }

  lemma PoppedConnected(m: Mask, seed: Point, before: set<Point>, added: set<Point>, stack: seq<Point>)
    requires m.Ok() && stack != [] && Searching(m, seed, before, added, stack) && m.Set(seed)
    requires m.Set(stack[|stack| - 1])
    ensures Connected(m, seed, stack[|stack| - 1])
  {
    var p := stack[|stack| - 1];
    assert p in stack;
    if p == seed {
      ConnectedSelf(m, p);
    } else {
      assert Touches(added, p);
      var q :| q in added && Adjacent(q, p);
      ConnectedStep(m, seed, q, p);
    }
  }

  // Marking a point and pushing its neighbours.
  lemma MarkKeeps(m: Mask, seed: Point, before: set<Point>, added: set<Point>, stack: seq<Point>)
    requires m.Ok() && stack != [] && Searching(m, seed, before, added, stack) && m.Set(seed)
    requires var p := stack[|stack| - 1]; m.Set(p) && p !in before && p !in added
    ensures var p := stack[|stack| - 1];
            Searching(m, seed, before, added + {p}, stack[..|stack| - 1] + Neighbours(p))
  {
    var p, rest := stack[|stack| - 1], stack[..|stack| - 1];
    PoppedConnected(m, seed, before, added, stack);
    assert forall q :: q in stack <==> q in rest || q == p;
    forall q ensures q in Neighbours(p) <==> Adjacent(p, q) { NeighboursExact(p, q); }
    forall q | Touches(added, q) || Adjacent(p, q) ensures Touches(added + {p}, q) {
      if Adjacent(p, q) {
        assert p in added + {p};
      } else {
        var r :| r in added && Adjacent(r, q);
        assert r in added + {p};
      }
    }
  }

  // With nothing left on the stack, exactly the seed's component is newly marked.
  lemma SearchDone(m: Mask, seed: Point, before: set<Point>, added: set<Point>)
    requires m.Ok() && m.Set(seed) && Closed(m, before) && seed !in before
    requires Searching(m, seed, before, added, [])
    ensures added == Component(m, seed) && Closed(m, before + added) && seed in added
  {
    assert Closed(m, before + added);
    ComponentInside(m, before + added, seed);
    ComponentApart(m, before, seed);
  }

  function Widen(b: Box, p: Point): Box {
    Box(if p.x < b.minX then p.x else b.minX, if p.x > b.maxX then p.x else b.maxX,
        if p.y < b.minY then p.y else b.minY, if p.y > b.maxY then p.y else b.maxY)
  }

  // One turn of the stack loop: pop a point; skip it, or mark it and push its neighbours.
  method Visit(m: Mask, seed: Point, visited: array2<bool>, ghost before: set<Point>, ghost added: set<Point>,
               stack: seq<Point>, box: Box)
    returns (stack': seq<Point>, box': Box, ghost added': set<Point>)
    requires m.Ok() && SameShape(m, visited) && m.Set(seed) && stack != []
    requires Marked(visited) == before + added && Searching(m, seed, before, added, stack)
    requires Bounding(box, seed, added)
    modifies visited
    ensures Marked(visited) == before + added' && Searching(m, seed, before, added', stack')
    ensures Bounding(box', seed, added')
    ensures Left(m, before + added', stack') < Left(m, before + added, stack)
  {
    var p := stack[|stack| - 1];
    if !m.Inside(p) || visited[p.y, p.x] || !m.rows[p.y][p.x] {
      assert m.Set(p) ==> p in Marked(visited);
      SkipKeeps(m, seed, before, added, stack);
      stack', box', added' := stack[..|stack| - 1], box, added;
    } else {
      assert p !in Marked(visited);
      MarkKeeps(m, seed, before, added, stack);
      MarkSmaller(m, before + added, p);
      AddLast(before, added, p);
      WidenKeeps(box, seed, added, p);
      Mark(visited, p);
      stack', box', added' := stack[..|stack| - 1] + Neighbours(p), Widen(box, p), added + {p};
    }
  }

  // What bounds the search: five for each unmarked cell, one for each stacked point.
  ghost function Left(m: Mask, now: set<Point>, stack: seq<Point>): nat
    requires m.Ok()
  {
    5 * |m.Cells() - now| + |stack|
  }

  // The stack loop. `visited` must mark whole components and not the seed; then it
  // marks exactly the seed's component in addition, and the box is tight.
  method Fill(m: Mask, seed: Point, visited: array2<bool>) returns (box: Box)
    requires m.Ok() && SameShape(m, visited)
    requires m.Set(seed) && Closed(m, Marked(visited)) && seed !in Marked(visited)
    modifies visited
    ensures Marked(visited) == old(Marked(visited)) + Component(m, seed)
    ensures Closed(m, Marked(visited)) && old(Marked(visited)) !! Component(m, seed)
    ensures IsBoxOf(box, Component(m, seed))
  {
    ghost var before, added := Marked(visited), {};
    box := Box(seed.x, seed.x, seed.y, seed.y);
    var stack := [seed];
    while stack != []
      invariant Marked(visited) == before + added
      invariant Searching(m, seed, before, added, stack)
      invariant Bounding(box, seed, added)
      decreases Left(m, before + added, stack)
    {
      stack, box, added := Visit(m, seed, visited, before, added, stack, box);
    }
    SearchDone(m, seed, before, added);
  }

  method Mark(visited: array2<bool>, p: Point)
    requires 0 <= p.x < visited.Length1 && 0 <= p.y < visited.Length0
    modifies visited
    ensures Marked(visited) == old(Marked(visited)) + {p}
  {
    visited[p.y, p.x] := true;
  }

  lemma AddLast(before: set<Point>, added: set<Point>, p: Point)
    ensures (before + added) + {p} == before + (added + {p})
  {
  }

  lemma MarkSmaller(m: Mask, now: set<Point>, p: Point)
    requires m.Ok() && m.Set(p) && p !in now
    ensures |m.Cells() - (now + {p})| == |m.Cells() - now| - 1
  {
    assert m.Cells() - now == (m.Cells() - (now + {p})) + {p};
  }

  lemma WidenKeeps(b: Box, seed: Point, added: set<Point>, p: Point)
    requires Bounding(b, seed, added)
    ensures Bounding(Widen(b, p), seed, added + {p})
  {
    assert p in added + {p};
  }

  // ------------------------------------------------------------------- the full scan

  ghost predicate Sampled(m: Mask, step: nat, p: Point)
    requires step > 0 && m.Ok()
  {
    m.Set(p) && OnGrid(step, p.x) && OnGrid(step, p.y)
  }

  // A value of `range(0, n, step)`.
  predicate OnGrid(step: nat, a: int)
    requires step > 0
    decreases a
  {
    a == 0 || (a >= step && OnGrid(step, a - step))
  }

  lemma {:induction false} Multiples(d: nat, step: nat)
    requires d > 0
    ensures d * step >= step
  {
    if d > 1 { Multiples(d - 1, step); }
  }

  // Division with remainder has one result.
  lemma SameRemainder(p: int, r: int, q: int, s: int, step: nat)
    requires 0 <= r < step && 0 <= s < step && p * step + r == q * step + s
    ensures r == s
    decreases p < q
  {
    if p < q {
      SameRemainder(q, s, p, r, step);
    } else if p > q {
      assert (p - q) * step == s - r;
      Multiples(p - q, step);
    }
  }

  // The grid is the multiples of the step.
  lemma {:induction false} GridExact(step: nat, a: int)
    requires step > 0
    ensures OnGrid(step, a) <==> a >= 0 && a % step == 0
    decreases a
  {
    if a >= step {
      GridExact(step, a - step);
      var q, r := (a - step) / step, (a - step) % step;
      assert q * step + r == a - step;
      assert (q + 1) * step == q * step + step;
      SameRemainder(a / step, a % step, q + 1, r, step);
    }
  }

  // The next grid value is one step further on.
  lemma {:induction false} GridGap(step: nat, a: int, b: int)
    requires step > 0 && OnGrid(step, a) && OnGrid(step, b) && a < b
    ensures a >= 0 && b >= a + step
    decreases a
  {
    if a != 0 { GridGap(step, a - step, b - step); }
  }

  // The sample points that the scan reaches before row `y`, column `x`.
  ghost predicate ReachedBefore(p: Point, x: int, y: int) {
    p.y < y || (p.y == y && p.x < x)
  }

  type Components = Point -> set<Point>

  ghost function ComponentsOf(m: Mask): Components
    requires m.Ok()
  {
    (p: Point) => if m.Ok() then Component(m, p) else {}
  }

  // `seeds` are the starts of the fills so far, one per component; `comp` maps a point
  // to its component.
  ghost predicate Scanned(comp: Components, now: set<Point>, seeds: seq<Point>) {
    && (forall k :: 0 <= k < |seeds| ==> comp(seeds[k]) <= now)
    && (forall j, k :: 0 <= j < k < |seeds| ==> comp(seeds[j]) !! comp(seeds[k]))
    && (forall p :: p in now ==> Reported(comp, seeds, p))
  }

  // Each fill started at a sample point and reported the tight box of its component.
  ghost predicate Boxed(m: Mask, comp: Components, step: nat, seeds: seq<Point>, boxes: seq<Box>)
    requires step > 0 && m.Ok()
  {
    && |seeds| == |boxes|
    && forall k :: 0 <= k < |seeds| ==> Sampled(m, step, seeds[k]) && IsBoxOf(boxes[k], comp(seeds[k]))
  }

  ghost predicate Reported(comp: Components, seeds: seq<Point>, p: Point) {
    exists k :: 0 <= k < |seeds| && p in comp(seeds[k])
  }

  // Every sample point reached so far is marked.
  ghost predicate Swept(m: Mask, step: nat, now: set<Point>, x: int, y: int)
    requires step > 0 && m.Ok()
  {
    forall p :: Sampled(m, step, p) && ReachedBefore(p, x, y) ==> p in now
  }

  // Every cell whose component a sample point hits.
  ghost function HitBySamples(m: Mask, step: nat): set<Point>
    requires step > 0 && m.Ok()
  {
    set p | p in m.Cells() && exists q :: Sampled(m, step, q) && p in Component(m, q)
  }

  // One fill per component hit, with its tight box, and nothing else marked.
  ghost predicate Report(m: Mask, step: nat, now: set<Point>, seeds: seq<Point>, boxes: seq<Box>)
    requires step > 0 && m.Ok()
  {
    Scanned(ComponentsOf(m), now, seeds) && Boxed(m, ComponentsOf(m), step, seeds, boxes)
  }

  ghost predicate ScanOk(m: Mask, step: nat, now: set<Point>, seeds: seq<Point>, boxes: seq<Box>, x: int, y: int)
    requires step > 0 && m.Ok()
  {
    && Closed(m, now)
    && Report(m, step, now, seeds, boxes)
    && Swept(m, step, now, x, y)
  }

  // A sample point starts a fill if it is set and not yet visited.
  method ScanPoint(m: Mask, step: nat, visited: array2<bool>, boxes: seq<Box>, ghost seeds: seq<Point>, x: nat, y: nat)
    returns (boxes': seq<Box>, ghost seeds': seq<Point>)
    requires step > 0 && m.Ok() && SameShape(m, visited) && m.Inside(Point(x, y))
    requires OnGrid(step, x) && OnGrid(step, y)
    requires ScanOk(m, step, Marked(visited), seeds, boxes, x, y)
    modifies visited
    ensures ScanOk(m, step, Marked(visited), seeds', boxes', x + step, y) && OnGrid(step, x + step)
  {
    boxes', seeds' := boxes, seeds;
    if m.rows[y][x] && !visited[y, x] {
      ghost var before := Marked(visited);
      var box := Fill(m, Point(x, y), visited);
      FillOk(m, step, before, seeds, boxes, x, y, box);
      boxes', seeds' := boxes + [box], seeds + [Point(x, y)];
    }
    ColumnDone(m, step, Marked(visited), seeds', boxes', x, y);
  }

  // The sample points of one row.
  method ScanRow(m: Mask, step: nat, visited: array2<bool>, boxes: seq<Box>, ghost seeds: seq<Point>, y: nat)
    returns (boxes': seq<Box>, ghost seeds': seq<Point>)
    requires step > 0 && m.Ok() && SameShape(m, visited) && y < |m.rows| && OnGrid(step, y)
    requires ScanOk(m, step, Marked(visited), seeds, boxes, 0, y)
    modifies visited
    ensures ScanOk(m, step, Marked(visited), seeds', boxes', 0, y + step) && OnGrid(step, y + step)
  {
    boxes', seeds' := boxes, seeds;
    var x := 0;
    while x < m.width
      invariant x >= 0 && OnGrid(step, x)
      invariant ScanOk(m, step, Marked(visited), seeds', boxes', x, y)
      decreases m.width - x
    {
      boxes', seeds' := ScanPoint(m, step, visited, boxes', seeds', x, y);
      x := x + step;
    }
    RowDone(m, step, Marked(visited), seeds', boxes', x, y);
  }

  // The whole scan: visited ends up as exactly the union of the components that a
  // sample point hits; each such component is reported once, with its tight box.
  method Scan(m: Mask, step: nat, visited: array2<bool>) returns (boxes: seq<Box>, ghost seeds: seq<Point>)
    requires step > 0 && m.Ok() && SameShape(m, visited) && Marked(visited) == {}
    modifies visited
    ensures Marked(visited) == HitBySamples(m, step)
    ensures Report(m, step, Marked(visited), seeds, boxes)
  {
    boxes, seeds := [], [];
    var y := 0;
    while y < |m.rows|
      invariant y >= 0 && OnGrid(step, y)
      invariant ScanOk(m, step, Marked(visited), seeds, boxes, 0, y)
      decreases |m.rows| - y
    {
      boxes, seeds := ScanRow(m, step, visited, boxes, seeds, y);
      y := y + step;
    }
    ScanDone(m, step, Marked(visited), seeds, boxes, y);
  }

  lemma FillOk(m: Mask, step: nat, before: set<Point>, seeds: seq<Point>, boxes: seq<Box>, x: int, y: int, box: Box)
    requires step > 0 && m.Ok() && ScanOk(m, step, before, seeds, boxes, x, y)
    requires var seed := Point(x, y);
             && Sampled(m, step, seed) && IsBoxOf(box, Component(m, seed)) && before !! Component(m, seed)
             && Closed(m, before + Component(m, seed))
    ensures var seed := Point(x, y);
            && ScanOk(m, step, before + Component(m, seed), seeds + [seed], boxes + [box], x, y)
            && seed in Component(m, seed)
  {
    var seed, comp := Point(x, y), ComponentsOf(m);
    ConnectedSelf(m, seed);
    assert comp(seed) == Component(m, seed);
    FillScanned(comp, before, seeds, seed);
    BoxedAppend(m, comp, step, seeds, boxes, seed, box);
  }

  lemma BoxedAppend(m: Mask, comp: Components, step: nat, seeds: seq<Point>, boxes: seq<Box>, seed: Point, box: Box)
    requires step > 0 && m.Ok() && Boxed(m, comp, step, seeds, boxes)
    requires Sampled(m, step, seed) && IsBoxOf(box, comp(seed))
    ensures Boxed(m, comp, step, seeds + [seed], boxes + [box])
  {
  }

  lemma FillScanned(comp: Components, before: set<Point>, seeds: seq<Point>, seed: Point)
    requires Scanned(comp, before, seeds) && comp(seed) !! before
    ensures Scanned(comp, before + comp(seed), seeds + [seed])
  {
    var seeds', now := seeds + [seed], before + comp(seed);
    forall p | p in now ensures Reported(comp, seeds', p) {
      if p in before {
        assert Reported(comp, seeds, p);
        var k :| 0 <= k < |seeds| && p in comp(seeds[k]);
        assert seeds'[k] == seeds[k];
      } else {
        assert seeds'[|seeds|] == seed;
      }
    }
    forall k | 0 <= k < |seeds'| ensures comp(seeds'[k]) <= now {}
    forall j, k | 0 <= j < k < |seeds'| ensures comp(seeds'[j]) !! comp(seeds'[k]) {
      assert seeds'[j] == seeds[j];
      assert comp(seeds[j]) <= before;
    }
  }

  lemma NextColumn(m: Mask, step: nat, now: set<Point>, x: int, y: int)
    requires step > 0 && m.Ok() && Swept(m, step, now, x, y)
    requires x >= 0 && OnGrid(step, x)
    requires m.Set(Point(x, y)) ==> Point(x, y) in now
    ensures Swept(m, step, now, x + step, y) && OnGrid(step, x + step)
  {
    forall p | Sampled(m, step, p) && ReachedBefore(p, x + step, y) ensures p in now {
      if p.y == y && p.x > x { GridGap(step, x, p.x); }
      assert p == Point(p.x, p.y);
    }
  }

  lemma NextRow(m: Mask, step: nat, now: set<Point>, x: int, y: int)
    requires step > 0 && m.Ok() && Swept(m, step, now, x, y)
    requires x >= m.width && y >= 0 && OnGrid(step, y)
    ensures Swept(m, step, now, 0, y + step) && OnGrid(step, y + step)
  {
    forall p | Sampled(m, step, p) && ReachedBefore(p, 0, y + step) ensures p in now {
      if p.y > y { GridGap(step, y, p.y); }
    }
  }

  lemma ColumnDone(m: Mask, step: nat, now: set<Point>, seeds: seq<Point>, boxes: seq<Box>, x: int, y: int)
    requires step > 0 && m.Ok() && ScanOk(m, step, now, seeds, boxes, x, y)
    requires x >= 0 && OnGrid(step, x)
    requires m.Set(Point(x, y)) ==> Point(x, y) in now
    ensures ScanOk(m, step, now, seeds, boxes, x + step, y) && OnGrid(step, x + step)
  {
    NextColumn(m, step, now, x, y);
  }

  lemma RowDone(m: Mask, step: nat, now: set<Point>, seeds: seq<Point>, boxes: seq<Box>, x: int, y: int)
    requires step > 0 && m.Ok() && ScanOk(m, step, now, seeds, boxes, x, y)
    requires x >= m.width && y >= 0 && OnGrid(step, y)
    ensures ScanOk(m, step, now, seeds, boxes, 0, y + step) && OnGrid(step, y + step)
  {
    NextRow(m, step, now, x, y);
  }

  lemma ScanDone(m: Mask, step: nat, now: set<Point>, seeds: seq<Point>, boxes: seq<Box>, y: int)
    requires step > 0 && m.Ok() && ScanOk(m, step, now, seeds, boxes, 0, y) && y >= |m.rows|
    ensures now == HitBySamples(m, step)
    ensures Report(m, step, now, seeds, boxes)
  {
    forall p | p in HitBySamples(m, step) ensures p in now {
      var q :| Sampled(m, step, q) && p in Component(m, q);
      assert q in now;
      ComponentInside(m, now, q);
    }
    forall p | p in now ensures p in HitBySamples(m, step) {
      assert Reported(ComponentsOf(m), seeds, p);
      var k :| 0 <= k < |seeds| && p in ComponentsOf(m)(seeds[k]);
      assert Sampled(m, step, seeds[k]) && p in Component(m, seeds[k]);
    }
  }
}
