/**
 The re-entrant, reference-counted handle that exposes a mutable wasm closure to the
 host. The pointer to the closure environment is a token: an invocation takes it
 out of the shared record for as long as its body runs.
 */
module MutClosure {

  // `a` is the pointer field and `cnt` the count of the shared record; `frames` the
  // pointers saved by the invocations now running, outermost first; `freed` what the
  // destructor was called with; `unrefs` how often the host let go.
  datatype Closure = Closure(a: nat, cnt: int, frames: seq<nat>, freed: seq<nat>, unrefs: nat)

  datatype Event = Invoke | Return | Unref

  function Made(p: nat): Closure {
    Closure(p, 1, [], [], 0)
  }

  // `--cnt === 0` calls the destructor and clears the pointer.
  function Decrement(c: Closure): Closure {
    if c.cnt - 1 == 0 then c.(cnt := 0, freed := c.freed + [c.a], a := 0) else c.(cnt := c.cnt - 1)
  }

  predicate Enabled(c: Closure, e: Event) {
    e.Return? ==> c.frames != []
  }

  // An invocation hands `c.a` to the body. Its `finally` part runs on return and on throw.
  function Next(c: Closure, e: Event): Closure
    requires Enabled(c, e)
  {
    match e
    case Invoke => c.(cnt := c.cnt + 1, frames := c.frames + [c.a], a := 0)
    case Return =>
      Decrement(c.(a := c.frames[|c.frames| - 1], frames := c.frames[..|c.frames| - 1]))
    case Unref => Decrement(c.(unrefs := c.unrefs + 1))
  }

  predicate IsRun(c: Closure, es: seq<Event>)
    decreases |es|
  {
    es == [] || (Enabled(c, es[0]) && IsRun(Next(c, es[0]), es[1..]))
  }

  function After(c: Closure, es: seq<Event>): Closure
    requires IsRun(c, es)
    decreases |es|
  {
    if es == [] then c else After(Next(c, es[0]), es[1..])
  }

  // ------------------------------------------------------------------- the token

  function Count(s: seq<nat>, p: nat): nat {
    multiset(s)[p]
  }

  // The non-zero pointer `p` is in exactly one place: the record, the outermost frame,
  // or the destructor's hands. While a body runs the record holds 0.
  predicate TokenOk(c: Closure, p: nat) {
    && c.cnt == 1 + |c.frames| - c.unrefs
    && (c.a == 0 || c.a == p)
    && (c.frames != [] ==> c.a == 0)
    && (forall k :: 0 <= k < |c.frames| ==> c.frames[k] == 0 || (k == 0 && c.frames[k] == p))
    && (if c.a == p then 1 else 0) + Count(c.frames, p) + Count(c.freed, p) == 1
    && (c.unrefs == 0 ==> Count(c.freed, p) == 0)
    && (c.unrefs == 1 && c.frames == [] ==> Count(c.freed, p) == 1)
  }

  lemma CountAppend(s: seq<nat>, x: nat, p: nat)
    ensures Count(s + [x], p) == Count(s, p) + (if x == p then 1 else 0)
    ensures |s| > 0 ==> Count(s, p) == Count(s[..|s| - 1], p) + (if s[|s| - 1] == p then 1 else 0)
  {
    if |s| > 0 { assert s == s[..|s| - 1] + [s[|s| - 1]]; }
  }

  lemma InvokeKeepsToken(c: Closure, p: nat)
    requires p != 0 && TokenOk(c, p)
    ensures TokenOk(Next(c, Invoke), p)
  {
    CountAppend(c.frames, c.a, p);
  }

  lemma ReturnKeepsToken(c: Closure, p: nat)
    requires p != 0 && TokenOk(c, p) && c.frames != []
    ensures TokenOk(Next(c, Return), p)
  {
    var saved, outer := c.frames[|c.frames| - 1], c.frames[..|c.frames| - 1];
    CountAppend(c.frames, 0, p);
    CountAppend(c.freed, saved, p);
    assert |c.frames| > 1 ==> saved == 0;
  }

  lemma UnrefKeepsToken(c: Closure, p: nat)
    requires p != 0 && TokenOk(c, p)
    ensures TokenOk(Next(c, Unref), p)
  {
    CountAppend(c.freed, c.a, p);
  }

  lemma StepKeepsToken(c: Closure, e: Event, p: nat)
    requires p != 0 && TokenOk(c, p) && Enabled(c, e)
    ensures TokenOk(Next(c, e), p)
  {
    match e {
      case Invoke => InvokeKeepsToken(c, p);
      case Return => ReturnKeepsToken(c, p);
      case Unref => UnrefKeepsToken(c, p);
    }
  }

  // For every nesting of invocations and unrefs, throws included: the pointer is in
  // one place, so the destructor gets it at most once; with exactly one unref it has
  // got it exactly once as soon as no invocation is running.
  lemma {:induction false} TokenInOnePlace(c: Closure, es: seq<Event>, p: nat)
    requires p != 0 && TokenOk(c, p) && IsRun(c, es)
    ensures TokenOk(After(c, es), p)
    decreases |es|
  {
    if es != [] {
      StepKeepsToken(c, es[0], p);
      TokenInOnePlace(Next(c, es[0]), es[1..], p);
    }
  }

  // The destructor is given the pointer only when no body is running, and a nested
  // invocation is given 0.
  lemma NeverFreedWhileRunning(c: Closure, e: Event, p: nat)
    requires p != 0 && TokenOk(c, p) && Enabled(c, e)
    ensures Count(Next(c, e).freed, p) > Count(c.freed, p) ==> Next(c, e).frames == []
    ensures c.frames != [] ==> Next(c, Invoke).frames[|c.frames|] == 0
  {
    CountAppend(c.freed, c.a, p);
    if e.Return? {
      CountAppend(c.freed, c.frames[|c.frames| - 1], p);
    }
  }

  // ------------------------------------------------------- when it is freed, exactly

  // Some moment of the run has exactly one unref so far and no invocation running.
  predicate Settles(c: Closure, es: seq<Event>)
    requires IsRun(c, es)
    decreases |es|
  {
    (c.unrefs == 1 && c.frames == []) || (es != [] && Settles(Next(c, es[0]), es[1..]))
  }

  // The pointer is freed by the run if and only if such a moment exists. Two host
  // unrefs during one activation leak the environment: the count passes zero while
  // the record holds 0, and never comes back with the pointer in place.
  lemma {:induction false} FreedIff(c: Closure, es: seq<Event>, p: nat)
    requires p != 0 && TokenOk(c, p) && IsRun(c, es) && Count(c.freed, p) == 0
    ensures Count(After(c, es).freed, p) == 1 <==> Settles(c, es)
    decreases |es|
  {
    if es != [] {
      var c' := Next(c, es[0]);
      StepKeepsToken(c, es[0], p);
      NeverFreedWhileRunning(c, es[0], p);
      if Count(c'.freed, p) == 1 {
        FreedOnlyWhenSettled(c, es[0], p);
        StaysFreed(c', es[1..], p);
      } else {
        FreedIff(c', es[1..], p);
      }
    }
  }

  // The whole life of a handle, from its making.
  lemma HandleLife(p: nat, es: seq<Event>)
    requires p != 0 && IsRun(Made(p), es)
    ensures TokenOk(After(Made(p), es), p)
    ensures Count(After(Made(p), es).freed, p) == 1 <==> Settles(Made(p), es)
  {
    TokenInOnePlace(Made(p), es, p);
    FreedIff(Made(p), es, p);
  }

  lemma FreedOnlyWhenSettled(c: Closure, e: Event, p: nat)
    requires p != 0 && TokenOk(c, p) && Enabled(c, e)
    requires Count(c.freed, p) == 0 && Count(Next(c, e).freed, p) == 1
    ensures Next(c, e).unrefs == 1 && Next(c, e).frames == []
  {
    NeverFreedWhileRunning(c, e, p);
  }

  lemma {:induction false} StaysFreed(c: Closure, es: seq<Event>, p: nat)
    requires p != 0 && TokenOk(c, p) && IsRun(c, es) && Count(c.freed, p) == 1
    ensures Count(After(c, es).freed, p) == 1
    decreases |es|
  {
    if es != [] {
      StepKeepsToken(c, es[0], p);
      CountAppend(c.freed, c.a, p);
      if es[0].Return? { CountAppend(c.freed, c.frames[|c.frames| - 1], p); }
      StaysFreed(Next(c, es[0]), es[1..], p);
    }
  }

  // Such a leaking run: one call whose body lets go twice.
  lemma DoubleUnrefLeaks(p: nat)
    requires p != 0
    ensures var es := [Invoke, Unref, Unref, Return];
            IsRun(Made(p), es) && After(Made(p), es) == Closure(p, -1, [], [0], 2)
  {
    var c0, es := Made(p), [Invoke, Unref, Unref, Return];
    var c1 := Next(c0, Invoke);
    var c2 := Next(c1, Unref);
    var c3 := Next(c2, Unref);
    assert c3 == Closure(0, 0, [p], [0], 2);
    assert es[1..] == [Unref, Unref, Return] && es[1..][1..] == [Unref, Return];
    assert es[1..][1..][1..] == [Return] && es[1..][1..][1..][1..] == [];
  }

  // ------------------------------------------------------------------ the handle itself

  // What a body does with the handle while it runs: nested calls and unrefs.
  datatype Body = End | Call(body: Body, next: Body) | LetGo(next: Body)

  function Trace(b: Body): seq<Event>
    decreases b, 0
  {
    match b
    case End => []
    case Call(inner, next) => TraceCall(inner) + Trace(next)
    case LetGo(next) => [Unref] + Trace(next)
  }

  // The events of one invocation.
  function TraceCall(b: Body): seq<Event>
    decreases b, 1
  {
    [Invoke] + (Trace(b) + [Return])
  }

  lemma {:induction false} RunConcat(c: Closure, es: seq<Event>, fs: seq<Event>)
    requires IsRun(c, es) && IsRun(After(c, es), fs)
    ensures IsRun(c, es + fs) && After(c, es + fs) == After(After(c, es), fs)
    decreases |es|
  {
    if es == [] {
      assert es + fs == fs;
    } else {
      assert (es + fs)[1..] == es[1..] + fs;
      RunConcat(Next(c, es[0]), es[1..], fs);
    }
  }

  class Handle {
    var a: nat
    var cnt: int
    ghost var frames: seq<nat>
    ghost var freed: seq<nat>
    ghost var unrefs: nat

    ghost function State(): Closure
      reads this
    {
      Closure(a, cnt, frames, freed, unrefs)
    }

    constructor (p: nat)
      ensures State() == Made(p)
    {
      a, cnt := p, 1;
      frames, freed, unrefs := [], [], 0;
    }

    // `_wbg_cb_unref`; `byHost` tells the host's calls from the one in `finally`.
    method Release(ghost byHost: bool)
      modifies this
      ensures byHost ==> State() == Next(old(State()), Unref)
      ensures !byHost ==> State() == Decrement(old(State()))
    {
      cnt := cnt - 1;
      if cnt == 0 {
        freed := freed + [a];
        a := 0;
      }
      if byHost {
        unrefs := unrefs + 1;
      }
    }

    // `real`: the state afterwards is that of the events of the body, in order.
    method Real(body: Body)
      modifies this
      ensures IsRun(old(State()), TraceCall(body)) && State() == After(old(State()), TraceCall(body))
      decreases body, 1
    {
      ghost var s0 := State();
      cnt := cnt + 1;
      var saved := a;
      a := 0;
      frames := frames + [saved];
      ghost var s1 := State();
      RunBody(body);
      ghost var s2 := State();
      BalancedFrames(s1, body);
      a := saved;
      frames := frames[..|frames| - 1];
      Release(false);
      assert State() == Next(s2, Return);
      assert [Return][1..] == [];
      RunConcat(s1, Trace(body), [Return]);
      assert TraceCall(body)[1..] == Trace(body) + [Return];
    }

    // The body of an invocation, one act after the other.
    method RunBody(body: Body)
      modifies this
      ensures IsRun(old(State()), Trace(body)) && State() == After(old(State()), Trace(body))
      decreases body, 0
    {
      ghost var s0 := State();
      match body {
        case End =>
        case Call(inner, next) =>
          Real(inner);
          RunBody(next);
          RunConcat(s0, TraceCall(inner), Trace(next));
        case LetGo(next) =>
          Release(true);
          assert [Unref][1..] == [];
          RunBody(next);
          RunConcat(s0, [Unref], Trace(next));
      }
    }
  }

  // A body leaves the saved pointers of the invocations around it alone.
  lemma {:induction false} BalancedFrames(c: Closure, b: Body)
    requires IsRun(c, Trace(b))
    ensures After(c, Trace(b)).frames == c.frames
    decreases b, 0
  {
    match b {
      case End =>
      case Call(inner, next) =>
        RunSplit(c, TraceCall(inner), Trace(next));
        BalancedCall(c, inner);
        BalancedFrames(After(c, TraceCall(inner)), next);
      case LetGo(next) =>
        assert ([Unref] + Trace(next))[1..] == Trace(next);
        BalancedFrames(Next(c, Unref), next);
    }
  }

  lemma {:induction false} BalancedCall(c: Closure, b: Body)
    requires IsRun(c, TraceCall(b))
    ensures After(c, TraceCall(b)).frames == c.frames
    decreases b, 1
  {
    var c1 := Next(c, Invoke);
    assert TraceCall(b)[1..] == Trace(b) + [Return];
    RunSplit(c1, Trace(b), [Return]);
    BalancedFrames(c1, b);
    assert [Return][1..] == [];
    assert (c.frames + [c.a])[..|c.frames|] == c.frames;
  }

  lemma {:induction false} RunSplit(c: Closure, es: seq<Event>, fs: seq<Event>)
    requires IsRun(c, es + fs)
    ensures IsRun(c, es) && IsRun(After(c, es), fs) && After(c, es + fs) == After(After(c, es), fs)
    decreases |es|
  {
    if es == [] {
      assert es + fs == fs;
    } else {
      assert (es + fs)[1..] == es[1..] + fs;
      RunSplit(Next(c, es[0]), es[1..], fs);
    }
  }
}
