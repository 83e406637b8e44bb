/** What is left in the pending map once every call has returned. */
module RpcAtRest {
  import opened RpcClient
  import opened RpcInvariant
  import opened RpcTheorems

  // ------------------------------------------------------------ who has registered

  // The id whose sender the step puts into the map, if any.
  function Registers(s: State, step: Step): set<Id>
    requires Enabled(s, step)
  {
    if step.ByTask? && step.action.Register? then {s.tasks[step.t].id} else {}
  }

  function Registered(s: State, steps: seq<Step>): set<Id>
    requires IsRun(s, steps)
    decreases |steps|
  {
    if steps == [] then {} else Registers(s, steps[0]) + Registered(Apply(s, steps[0]), steps[1..])
  }

  predicate GaveUp(s: State, i: Id) {
    i in s.owner && s.owner[i] < |s.tasks| && s.tasks[s.owner[i]].pc == Done(ResponseTimedOut)
  }

  // The senders that are anywhere are those registered, but for those removed by a call
  // that timed out waiting.
  ghost predicate Tracks(s: State, registered: set<Id>) {
    && (forall i :: Somewhere(s.waiters, i) ==> i in registered)
    && (forall i :: i in registered ==> i in s.owner && (Somewhere(s.waiters, i) || GaveUp(s, i)))
  }

  // Where a sender is changes; that it is somewhere changes with two actions only.
  lemma SomewhereAfter(s: State, t: TaskIx, a: Action, i: Id)
    requires Inv(s) && TaskEnabled(s, t, a)
    ensures Somewhere(WaitersAfter(s, t, a), i)
       <==> if a.Register? && i == s.tasks[t].id then true
            else if a.RemoveOwn? && i == s.tasks[t].id then i in s.waiters.hands || i in s.waiters.sent
            else Somewhere(s.waiters, i)
  {
  }

  lemma ReaderSomewhere(s: State, e: Event, i: Id)
    requires Inv(s) && ReaderEnabled(s, e)
    ensures Somewhere(ApplyReader(s, e).waiters, i) <==> Somewhere(s.waiters, i)
  {
  }

  // A call that gave up stays so, and its own removal is the only one.
  lemma TaskGivesUp(s: State, t: TaskIx, a: Action, i: Id)
    requires Inv(s) && TaskEnabled(s, t, a) && i in s.owner
    requires Somewhere(s.waiters, i) || GaveUp(s, i)
    ensures var s' := ApplyTask(s, t, a); i in s'.owner && (Somewhere(s'.waiters, i) || GaveUp(s', i))
  {
    SomewhereAfter(s, t, a, i);
    assert TaskOk(s.tasks[t]);
    if a.RemoveOwn? && i == s.tasks[t].id {
      assert s.owner[i] == t;
    }
  }

  lemma TaskTracks(s: State, t: TaskIx, a: Action, registered: set<Id>)
    requires Inv(s) && TaskEnabled(s, t, a) && Tracks(s, registered)
    ensures Tracks(ApplyTask(s, t, a), registered + Registers(s, ByTask(t, a)))
  {
    var s' := ApplyTask(s, t, a);
    forall i | Somewhere(s'.waiters, i) ensures i in registered + Registers(s, ByTask(t, a)) {
      SomewhereAfter(s, t, a, i);
    }
    forall i | i in registered + Registers(s, ByTask(t, a))
      ensures i in s'.owner && (Somewhere(s'.waiters, i) || GaveUp(s', i))
    {
      if i in registered {
        TaskGivesUp(s, t, a, i);
      } else {
        assert TaskOk(s.tasks[t]);
        SomewhereAfter(s, t, a, i);
      }
    }
  }

  lemma StepTracks(s: State, step: Step, registered: set<Id>)
    requires Inv(s) && Enabled(s, step) && Tracks(s, registered)
    ensures Tracks(Apply(s, step), registered + Registers(s, step))
  {
    match step {
      case Spawn(_) =>
      case ByTask(t, a) => TaskTracks(s, t, a, registered);
      case ByReader(e) =>
        forall i ensures Somewhere(ApplyReader(s, e).waiters, i) <==> Somewhere(s.waiters, i) {
          ReaderSomewhere(s, e, i);
        }
    }
  }

  lemma {:induction false} RunTracks(s: State, steps: seq<Step>, registered: set<Id>)
    requires Inv(s) && IsRun(s, steps) && Tracks(s, registered)
    ensures Inv(After(s, steps)) && Tracks(After(s, steps), registered + Registered(s, steps))
    decreases |steps|
  {
    if steps == [] {
      assert registered + {} == registered;
    } else {
      var s1, now := Apply(s, steps[0]), registered + Registers(s, steps[0]);
      StepKeeps(s, steps[0]);
      StepTracks(s, steps[0], registered);
      RunTracks(s1, steps[1..], now);
      assert now + Registered(s1, steps[1..]) == registered + Registered(s, steps);
    }
  }

  // ------------------------------------------------------------ the map at rest

  // Its call failed to serialize its parameters or was dropped.
  predicate LeakedBy(s: State, i: Id) {
    i in s.owner && s.owner[i] < |s.tasks| && Leaked(s.tasks[s.owner[i]])
  }

  lemma NothingInHand(s: State)
    requires Inv(s) && AllReturned(s)
    ensures s.waiters.hands == map[]
  {
    forall i ensures i !in s.waiters.hands {}
  }

  // On every run to a state where all calls have returned, dropped ones included: an
  // id is in the map if and only if it was registered, its sender was not used, and its
  // call failed to serialize or was dropped.
  lemma MapAtRest(steps: seq<Step>, i: Id)
    requires IsRun(INITIAL, steps) && AllReturned(After(INITIAL, steps))
    ensures var s, registered := After(INITIAL, steps), Registered(INITIAL, steps);
            i in s.waiters.pending <==> (i in registered && i !in s.waiters.sent && LeakedBy(s, i))
  {
    var s := After(INITIAL, steps);
    InitialOk();
    RunTracks(INITIAL, steps, {});
    NothingInHand(s);
    assert {} + Registered(INITIAL, steps) == Registered(INITIAL, steps);
    if i in s.waiters.pending {
      assert Somewhere(s.waiters, i);
      assert MayBePending(s.tasks[s.owner[i]]);
    }
    if i in Registered(INITIAL, steps) && i !in s.waiters.sent && LeakedBy(s, i) {
      assert !GaveUp(s, i);
    }
  }

  // ------------------------------------------------------------ one dropped request

  lemma DoneStep(s: State, step: Step, t: TaskIx)
    requires Inv(s) && Enabled(s, step) && t < |s.tasks| && s.tasks[t].pc.Done? && s.tasks[t].id != 0
    ensures t < |Apply(s, step).tasks| && Apply(s, step).tasks[t] == s.tasks[t]
    ensures Somewhere(Apply(s, step).waiters, s.tasks[t].id) <==> Somewhere(s.waiters, s.tasks[t].id)
  {
    match step {
      case Spawn(_) =>
      case ByTask(u, a) =>
        SomewhereAfter(s, u, a, s.tasks[t].id);
        assert TaskOk(s.tasks[u]);
      case ByReader(e) => ReaderSomewhere(s, e, s.tasks[t].id);
    }
  }

  // Once its call is over, a sender that is somewhere stays somewhere.
  lemma {:induction false} DoneStays(s: State, steps: seq<Step>, t: TaskIx)
    requires Inv(s) && IsRun(s, steps) && t < |s.tasks| && s.tasks[t].pc.Done? && s.tasks[t].id != 0
    ensures Inv(After(s, steps))
    ensures Somewhere(After(s, steps).waiters, s.tasks[t].id) <==> Somewhere(s.waiters, s.tasks[t].id)
    decreases |steps|
  {
    if steps != [] {
      StepKeeps(s, steps[0]);
      DoneStep(s, steps[0], t);
      DoneStays(Apply(s, steps[0]), steps[1..], t);
    }
  }

  // A dropped request leaves its entry behind if and only if it had registered and no
  // frame or drain used its sender, before or after.
  lemma DroppedLeavesIff(s: State, t: TaskIx, steps: seq<Step>)
    requires Inv(s) && TaskEnabled(s, t, Cancel) && s.tasks[t].kind.Request?
    requires IsRun(ApplyTask(s, t, Cancel), steps) && AllReturned(After(ApplyTask(s, t, Cancel), steps))
    ensures var id, end := s.tasks[t].id, After(ApplyTask(s, t, Cancel), steps).waiters;
            id in end.pending <==> (Somewhere(s.waiters, id) && id !in end.sent)
  {
    var s' := ApplyTask(s, t, Cancel);
    assert TaskOk(s.tasks[t]);
    StepKeeps(s, ByTask(t, Cancel));
    DoneStays(s', steps, t);
    NothingInHand(After(s', steps));
  }
}
