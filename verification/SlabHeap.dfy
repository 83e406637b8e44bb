/**
 The table of host objects that wasm code refers to by index: an array whose free
 slots hold the index of the next free slot. Slots carry no tag, so a live slot may
 hold a number too; only the free list tells them apart.
 */
module SlabHeap {
  datatype JsValue = Undefined | Null | Boolean(b: bool) | Number(n: nat) | Object(id: nat)

  // The slots below this index are constants and are never freed.
  const RESERVED: nat := 1028

  // `new Array(n).fill(undefined)`
  function Filled(n: nat): (s: seq<JsValue>)
    ensures |s| == n && forall i :: 0 <= i < n ==> s[i] == Undefined
  {
    if n == 0 then [] else Filled(n - 1) + [Undefined]
  }

  const FIXED_SLOTS: seq<JsValue> := [Undefined, Null, Boolean(true), Boolean(false)]

  function InitialHeap(): (s: seq<JsValue>)
    ensures |s| == RESERVED
  {
    Filled(1024) + FIXED_SLOTS
  }

  // Which handles are constants, and what they stand for.
  lemma InitialExact(i: nat)
    requires i < 1028
    ensures |InitialHeap()| == 1028
    ensures InitialHeap()[i] == if i == 1025 then Null
                                else if i == 1026 then Boolean(true)
                                else if i == 1027 then Boolean(false)
                                else Undefined
  {
    assert i >= 1024 ==> InitialHeap()[i] == FIXED_SLOTS[i - 1024];
  }

  datatype Slab = Slab(heap: seq<JsValue>, next: nat)

  // -------------------------------------------------------------------- well-formedness

  // `free` is the free list: `next` is its head, each slot on it names the one after
  // it, and the last names the length of the array.
  predicate Chain(s: Slab, free: seq<nat>) {
    && s.next == Link(s, free, 0)
    && forall k :: 0 <= k < |free| ==>
         free[k] < |s.heap|
         && s.heap[free[k]] == Number(Link(s, free, k + 1))
  }

  // The index that stands for position `k` of the free list.
  function Link(s: Slab, free: seq<nat>, k: nat): nat {
    if k < |free| then free[k] else |s.heap|
  }

  predicate Distinct(free: seq<nat>) {
    forall j, k :: 0 <= j < k < |free| ==> free[j] != free[k]
  }

  // `live` is what the outstanding handles refer to. From RESERVED up, a slot is
  // either live or on the free list, which has no cycle; below it, nothing changes.
  ghost predicate WellFormed(s: Slab, live: map<nat, JsValue>, free: seq<nat>) {
    && RESERVED <= |s.heap|
    && s.heap[..RESERVED] == InitialHeap()
    && Chain(s, free) && Distinct(free)
    && (forall i :: RESERVED <= i < |s.heap| ==> (i in free <==> i !in live))
    && (forall i :: i in live ==> RESERVED <= i < |s.heap| && s.heap[i] == live[i])
    && (forall i :: i in free ==> RESERVED <= i < |s.heap|)
  }

  // ------------------------------------------------------------------------- operations

  // `heap.push(heap.length + 1)` when the free list is used up.
  function Grown(s: Slab): (s': Slab)
    requires s.next <= |s.heap|
    ensures s'.next == s.next < |s'.heap|
  {
    if s.next == |s.heap| then s.(heap := s.heap + [Number(|s.heap| + 1)]) else s
  }

  function AddSlot(s: Slab, v: JsValue): Slab
    requires s.next <= |s.heap| && Grown(s).heap[s.next].Number?
  {
    var g := Grown(s);
    Slab(g.heap[s.next := v], g.heap[s.next].n)
  }

  function DropSlot(s: Slab, i: nat): Slab
    requires i < |s.heap|
  {
    if i < RESERVED then s else Slab(s.heap[i := Number(s.next)], i)
  }

  // A new handle is not in use, and after the add the slab is well formed with it live.
  lemma AddKeeps(s: Slab, live: map<nat, JsValue>, free: seq<nat>, v: JsValue) returns (free': seq<nat>)
    requires WellFormed(s, live, free)
    ensures s.next <= |s.heap| && Grown(s).heap[s.next].Number?
    ensures s.next !in live && s.next >= RESERVED
    ensures WellFormed(AddSlot(s, v), live[s.next := v], free')
    ensures free' == if free == [] then [] else free[1..]
  {
    if free == [] {
      free' := [];
      AddAtEnd(s, live, v);
    } else {
      free' := free[1..];
      AddFromList(s, live, free, v);
    }
  }

  // Nothing is free: the array grows by one slot.
  lemma AddAtEnd(s: Slab, live: map<nat, JsValue>, v: JsValue)
    requires WellFormed(s, live, [])
    ensures RESERVED <= s.next == |s.heap| && Grown(s).heap[s.next].Number? && s.next !in live
    ensures WellFormed(AddSlot(s, v), live[s.next := v], [])
  {
    var s' := AddSlot(s, v);
    assert s'.heap[..RESERVED] == s.heap[..RESERVED];
    assert forall i :: RESERVED <= i < |s.heap| ==> i !in [] && i in live;
  }

  lemma Behead(free: seq<nat>)
    requires free != [] && Distinct(free)
    ensures Distinct(free[1..]) && free[0] !in free[1..]
    ensures forall i :: i in free <==> i == free[0] || i in free[1..]
  {
    assert free == [free[0]] + free[1..];
    assert forall k :: 0 <= k < |free[1..]| ==> free[1..][k] == free[k + 1];
  }

  // The rest of the free list is linked as before once the head slot is overwritten.
  lemma TailChain(s: Slab, free: seq<nat>, s': Slab, free': seq<nat>)
    requires free != [] && Chain(s, free) && Distinct(free) && free' == free[1..]
    requires |s'.heap| == |s.heap| && s'.next == Link(s, free, 1)
    requires forall i :: 0 <= i < |s.heap| && i != free[0] ==> s'.heap[i] == s.heap[i]
    ensures Chain(s', free')
  {
    forall k | 0 <= k < |free'|
      ensures free'[k] < |s'.heap| && s'.heap[free'[k]] == Number(Link(s', free', k + 1))
    {
      assert free'[k] == free[k + 1] && free[k + 1] != free[0];
      assert s.heap[free[k + 1]] == Number(Link(s, free, k + 2));
    }
  }

  // The head of the free list is taken.
  lemma AddFromList(s: Slab, live: map<nat, JsValue>, free: seq<nat>, v: JsValue)
    requires WellFormed(s, live, free) && free != []
    ensures RESERVED <= s.next == free[0] < |s.heap| && Grown(s).heap[s.next].Number? && s.next !in live
    ensures WellFormed(AddSlot(s, v), live[s.next := v], free[1..])
  {
    assert free[0] in free;
    assert s.heap[free[0]] == Number(Link(s, free, 1));
    var s' := AddSlot(s, v);
    assert s'.heap[..RESERVED] == s.heap[..RESERVED];
    TailChain(s, free, s', free[1..]);
    Behead(free);
  }

  // A slot that is not free becomes the head of the free list.
  lemma PushChain(s: Slab, free: seq<nat>, i: nat, s': Slab, free': seq<nat>)
    requires Chain(s, free) && Distinct(free) && RESERVED <= i < |s.heap| && i !in free
    requires s' == DropSlot(s, i) && free' == [i] + free
    ensures Chain(s', free') && Distinct(free') && forall j :: j in free' <==> j == i || j in free
  {
    forall k | 0 <= k < |free'|
      ensures free'[k] < |s'.heap| && s'.heap[free'[k]] == Number(Link(s', free', k + 1))
    {
      if k > 0 { assert free'[k] == free[k - 1] && free[k - 1] in free; }
    }
  }

  // Dropping a live handle frees its slot; dropping a reserved one does nothing.
  lemma DropKeeps(s: Slab, live: map<nat, JsValue>, free: seq<nat>, i: nat) returns (free': seq<nat>)
    requires WellFormed(s, live, free)
    requires i < RESERVED || i in live
    ensures i < |s.heap| && WellFormed(DropSlot(s, i), live - {i}, free')
    ensures free' == if i < RESERVED then free else [i] + free
  {
    if i < RESERVED {
      free' := free;
      assert live - {i} == live;
    } else {
      free' := [i] + free;
      var s' := DropSlot(s, i);
      assert s'.heap[..RESERVED] == InitialHeap();
      PushChain(s, free, i, s', free');
    }
  }

  // ------------------------------------------------------------------ whole sequences

  datatype Op = AddOp(v: JsValue) | DropOp(i: nat)

  // The slot at the head of the free list, or the one pushed, links on.
  predicate CanAdd(s: Slab) {
    s.next <= |s.heap| && Grown(s).heap[s.next].Number?
  }

  // What callers owe: every drop names a reserved slot or a handle that is live at
  // that moment. Nothing is asked of adds.
  ghost predicate Lawful(s: Slab, live: map<nat, JsValue>, ops: seq<Op>)
    decreases |ops|
  {
    ops == [] ||
    match ops[0]
    case AddOp(v) => CanAdd(s) ==> Lawful(AddSlot(s, v), live[s.next := v], ops[1..])
    case DropOp(i) =>
      (i < RESERVED || i in live) && (i < |s.heap| ==> Lawful(DropSlot(s, i), live - {i}, ops[1..]))
  }

  // No operation gets stuck: each add finds a link, each drop a slot.
  ghost predicate Completes(s: Slab, live: map<nat, JsValue>, ops: seq<Op>)
    decreases |ops|
  {
    ops == [] ||
    match ops[0]
    case AddOp(v) => CanAdd(s) && Completes(AddSlot(s, v), live[s.next := v], ops[1..])
    case DropOp(i) => i < |s.heap| && Completes(DropSlot(s, i), live - {i}, ops[1..])
  }

  ghost function Run(s: Slab, live: map<nat, JsValue>, ops: seq<Op>): (Slab, map<nat, JsValue>)
    requires Completes(s, live, ops)
    decreases |ops|
  {
    if ops == [] then (s, live)
    else
      match ops[0]
      case AddOp(v) => Run(AddSlot(s, v), live[s.next := v], ops[1..])
      case DropOp(i) => Run(DropSlot(s, i), live - {i}, ops[1..])
  }

  // Under every sequence of adds and of drops of live handles no operation gets stuck
  // and the slab stays well formed: the free list is acyclic and holds exactly the
  // slots that are not live, and every live handle still returns its own object.
  lemma {:induction false} RunKeeps(s: Slab, live: map<nat, JsValue>, free: seq<nat>, ops: seq<Op>)
    returns (free': seq<nat>)
    requires WellFormed(s, live, free) && Lawful(s, live, ops)
    ensures Completes(s, live, ops)
    ensures WellFormed(Run(s, live, ops).0, Run(s, live, ops).1, free')
    decreases |ops|
  {
    if ops == [] {
      free' := free;
    } else {
      match ops[0] {
        case AddOp(v) =>
          var free1 := AddKeeps(s, live, free, v);
          free' := RunKeeps(AddSlot(s, v), live[s.next := v], free1, ops[1..]);
        case DropOp(i) =>
          var free1 := DropKeeps(s, live, free, i);
          free' := RunKeeps(DropSlot(s, i), live - {i}, free1, ops[1..]);
      }
    }
  }

  // From the heap as it is set up: there is a free list that fits, always.
  lemma EveryHeap(ops: seq<Op>) returns (free: seq<nat>)
    requires Lawful(Slab(InitialHeap(), RESERVED), map[], ops)
    ensures Completes(Slab(InitialHeap(), RESERVED), map[], ops)
    ensures var (s, live) := Run(Slab(InitialHeap(), RESERVED), map[], ops);
            WellFormed(s, live, free)
  {
    free := RunKeeps(Slab(InitialHeap(), RESERVED), map[], [], ops);
  }

  // ------------------------------------------------------ what a double free would do

  // Dropping a slot keeps the free list acyclic and complete for what is then live if
  // and only if the slot is reserved or live: a second drop of the same handle
  // always breaks it.
  lemma DropSafeIff(s: Slab, live: map<nat, JsValue>, free: seq<nat>, i: nat)
    requires WellFormed(s, live, free) && i < |s.heap|
    ensures (exists free' :: WellFormed(DropSlot(s, i), live - {i}, free')) <==> i < RESERVED || i in live
  {
    if i < RESERVED || i in live {
      var free' := DropKeeps(s, live, free, i);
    } else {
      assert i in free;
      forall free' | WellFormed(DropSlot(s, i), live - {i}, free') ensures false {
        DoubleDropCycles(s, free, i, free');
      }
    }
  }

  // After a double drop no list can be read off the slab: from `i` the links lead
  // back to `i`.
  lemma DoubleDropCycles(s: Slab, free: seq<nat>, i: nat, free': seq<nat>)
    requires Chain(s, free) && Distinct(free) && i in free && i >= RESERVED && i < |s.heap|
    requires Chain(DropSlot(s, i), free') && Distinct(free')
    ensures false
  {
    var k :| 0 <= k < |free| && free[k] == i;
    var s' := DropSlot(s, i);
    FollowsChain(s, free, i, free', k, 0);
  }

  // `free'` is `i` followed by `free`, for as long as `free` has not reached `i`.
  lemma {:induction false} FollowsChain(s: Slab, free: seq<nat>, i: nat, free': seq<nat>, k: nat, j: nat)
    requires Chain(s, free) && Distinct(free) && i >= RESERVED && i < |s.heap|
    requires Chain(DropSlot(s, i), free') && Distinct(free')
    requires k < |free| && free[k] == i && j <= k
    requires j < |free'| && (if j == 0 then free'[0] == i else free'[j] == free[j - 1])
    ensures false
    decreases k - j
  {
    var s', here := DropSlot(s, i), free'[j];
    if j == 0 {
      assert s'.heap[here] == Number(free[0]);
    } else {
      assert s.heap[free[j - 1]] == Number(Link(s, free, j));
      assert s'.heap[here] == Number(free[j]);
    }
    assert s'.heap[here] == Number(Link(s', free', j + 1));
    if j < k { FollowsChain(s, free, i, free', k, j + 1); }
  }

  // -------------------------------------------------------------------- the table itself

  class Heap {
    var heap: seq<JsValue>
    var heapNext: nat
    ghost var live: map<nat, JsValue>
    ghost var free: seq<nat>

    ghost predicate Valid()
      reads this
    {
      WellFormed(Slots(), live, free)
    }

    ghost function Slots(): Slab
      reads this
    {
      Slab(heap, heapNext)
    }

    constructor ()
      ensures Valid() && live == map[] && heap == InitialHeap()
    {
      heap := InitialHeap();
      heapNext := |InitialHeap()|;
      live := map[];
      free := [];
    }

    // `addHeapObject`
    method Add(v: JsValue) returns (idx: nat)
      requires Valid()
      modifies this
      ensures Valid()
      ensures idx !in old(live) && live == old(live)[idx := v]
      ensures old(heapNext <= |heap| && Grown(Slots()).heap[heapNext].Number?)
      ensures idx == old(heapNext) && Slots() == AddSlot(old(Slots()), v)
    {
      free := AddKeeps(Slots(), live, free, v);
      if heapNext == |heap| {
        heap := heap + [Number(|heap| + 1)];
      }
      idx := heapNext;
      heapNext := heap[idx].n;
      heap := heap[idx := v];
      live := live[idx := v];
      assert Slots() == AddSlot(old(Slots()), v);
    }

    // `dropObject`
    method Drop(idx: nat)
      requires Valid() && (idx < RESERVED || idx in live)
      modifies this
      ensures Valid()
      ensures live == old(live) - {idx}
      ensures idx < old(|heap|) && Slots() == DropSlot(old(Slots()), idx)
    {
      free := DropKeeps(Slots(), live, free, idx);
      live := live - {idx};
      if idx < RESERVED {
        return;
      }
      heap := heap[idx := Number(heapNext)];
      heapNext := idx;
      assert Slots() == DropSlot(old(Slots()), idx);
    }

    // `getObject`
    method Get(idx: nat) returns (v: JsValue)
      requires Valid() && (idx < RESERVED || idx in live)
      ensures v == if idx in live then live[idx]
                   else if idx == 1025 then Null
                   else if idx == 1026 then Boolean(true)
                   else if idx == 1027 then Boolean(false)
                   else Undefined
    {
      if idx < RESERVED {
        assert heap[..RESERVED][idx] == heap[idx];
        InitialExact(idx);
      }
      v := heap[idx];
    }

    // `takeObject`
    method Take(idx: nat) returns (v: JsValue)
      requires Valid() && (idx < RESERVED || idx in live)
      modifies this
      ensures Valid()
      ensures v == if idx in old(live) then old(live)[idx]
                   else if idx == 1025 then Null
                   else if idx == 1026 then Boolean(true)
                   else if idx == 1027 then Boolean(false)
                   else Undefined
      ensures live == old(live) - {idx}
    {
      v := Get(idx);
      Drop(idx);
    }
  }
}
