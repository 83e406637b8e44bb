/** What a call returns: as its sender was used, or as its own failure says. */
module RpcOutcomes {
  import opened RpcClient
  import opened RpcInvariant
  import opened RpcTheorems

  // ------------------------------------------------------------ a response frame arrives

  // The sender of `id` is on its way to frame `k`, or was used with it.
  predicate OnItsWay(s: State, id: Id, k: nat) {
    || (s.reader == Delivering(id, k) && id in s.waiters.hands && s.waiters.hands[id].TheReader?)
    || (id in s.waiters.sent && s.waiters.sent[id] == Response(k))
  }

  // A task touches only senders in its own hands.
  lemma TaskOnItsWay(s: State, t: TaskIx, a: Action, id: Id, k: nat)
    requires Apart(s.waiters) && TaskEnabled(s, t, a) && OnItsWay(s, id, k)
    ensures OnItsWay(ApplyTask(s, t, a), id, k)
  {
    assert ApplyTask(s, t, a).reader == s.reader;
    SenderStays(s, t, a, id);
  }

  lemma SenderStays(s: State, t: TaskIx, a: Action, id: Id)
    requires Apart(s.waiters) && TaskEnabled(s, t, a)
    ensures var w := WaitersAfter(s, t, a);
            && (id in s.waiters.hands && s.waiters.hands[id].TheReader? ==> id in w.hands && w.hands[id].TheReader?)
            && (id in s.waiters.sent ==> id in w.sent && w.sent[id] == s.waiters.sent[id])
  {
  }

  lemma ReaderOnItsWay(s: State, e: Event, id: Id, k: nat)
    requires Apart(s.waiters) && HandsOk(s.waiters, s.tasks, s.reader) && ReaderEnabled(s, e) && OnItsWay(s, id, k)
    ensures OnItsWay(ApplyReader(s, e), id, k)
  {
  }

  lemma StepOnItsWay(s: State, step: Step, id: Id, k: nat)
    requires Inv(s) && Enabled(s, step) && OnItsWay(s, id, k)
    ensures OnItsWay(Apply(s, step), id, k)
  {
    match step {
      case Spawn(_) =>
      case ByTask(t, a) => TaskOnItsWay(s, t, a, id, k);
      case ByReader(e) => ReaderOnItsWay(s, e, id, k);
    }
  }

  lemma {:induction false} StaysOnItsWay(s: State, steps: seq<Step>, id: Id, k: nat)
    requires Inv(s) && IsRun(s, steps) && OnItsWay(s, id, k)
    ensures Inv(After(s, steps)) && OnItsWay(After(s, steps), id, k)
    decreases |steps|
  {
    if steps != [] {
      StepKeeps(s, steps[0]);
      StepOnItsWay(s, steps[0], id, k);
      StaysOnItsWay(Apply(s, steps[0]), steps[1..], id, k);
    }
  }

  // A response frame whose id is in the map is the one its sender is used with, as soon
  // as the read loop is done with it, whether or not the client is closed by then.
  lemma FrameIsDelivered(s: State, id: Id, steps: seq<Step>)
    requires Inv(s) && s.reader.Reading? && id in s.waiters.pending
    requires IsRun(Apply(s, ByReader(ResponseFrame(id))), steps)
    ensures var end := After(Apply(s, ByReader(ResponseFrame(id))), steps);
            && id !in end.waiters.pending
            && (if end.reader == Delivering(id, |s.frames|) then ReaderEnabled(end, Deliver)
                else id in end.waiters.sent && end.waiters.sent[id] == Response(|s.frames|))
  {
    StepKeeps(s, ByReader(ResponseFrame(id)));
    StaysOnItsWay(Apply(s, ByReader(ResponseFrame(id))), steps, id, |s.frames|);
  }

  // Any other response frame is dropped: nobody is told, and the loop reads on.
  lemma UnknownFrameIsDropped(s: State, id: Id)
    requires s.reader.Reading? && id !in s.waiters.pending
    ensures Apply(s, ByReader(ResponseFrame(id))) == s.(frames := s.frames + [id])
  {
  }

  // ------------------------------------------------------------ a waiting call returns

  // The call still waits, was dropped, or returned what its sender was used with.
  predicate ReturnsAsSent(task: Task, outcome: Outcome) {
    || task.pc.Waiting?
    || task.pc == Done(Cancelled)
    || (match outcome
        case Response(k) => task.pc == Done(Answered(k))
        case ConnectionClosed => task.pc == Done(Closed))
  }

  lemma OwnStepReturnsAsSent(s: State, t: TaskIx, a: Action, outcome: Outcome)
    requires TaskEnabled(s, t, a) && ReturnsAsSent(s.tasks[t], outcome)
    requires s.tasks[t].id in s.waiters.sent && s.waiters.sent[s.tasks[t].id] == outcome
    ensures TaskAfter(s, t, a).id == s.tasks[t].id && ReturnsAsSent(TaskAfter(s, t, a), outcome)
  {
  }

  lemma StepReturnsAsSent(s: State, step: Step, t: TaskIx, outcome: Outcome)
    requires Enabled(s, step) && t < |s.tasks| && ReturnsAsSent(s.tasks[t], outcome)
    requires s.tasks[t].id in s.waiters.sent && s.waiters.sent[s.tasks[t].id] == outcome
    ensures t < |Apply(s, step).tasks| && Apply(s, step).tasks[t].id == s.tasks[t].id
    ensures ReturnsAsSent(Apply(s, step).tasks[t], outcome)
  {
    if step.ByTask? && step.t == t {
      OwnStepReturnsAsSent(s, t, step.action, outcome);
    } else {
      assert Apply(s, step).tasks[t] == s.tasks[t];
    }
  }

  // Once the sender of a waiting call is used, the call can return at once, and only
  // what it was used with: connection-closed for connection-closed, the frame for a frame.
  lemma {:induction false} EndsAsSent(s: State, steps: seq<Step>, t: TaskIx)
    requires Inv(s) && IsRun(s, steps) && t < |s.tasks| && s.tasks[t].id in s.waiters.sent
    requires ReturnsAsSent(s.tasks[t], s.waiters.sent[s.tasks[t].id])
    ensures var end, id := After(s, steps), s.tasks[t].id;
            && t < |end.tasks| && end.tasks[t].id == id && id in end.waiters.sent
            && ReturnsAsSent(end.tasks[t], s.waiters.sent[id])
            && (end.tasks[t].pc.Waiting? ==> TaskEnabled(end, t, Receive))
    decreases |steps|
  {
    if steps != [] {
      var s1 := Apply(s, steps[0]);
      StepKeeps(s, steps[0]);
      StepReturnsAsSent(s, steps[0], t, s.waiters.sent[s.tasks[t].id]);
      assert KeepsCompleted(s, s1) by { CompletesOnce(s, [steps[0]]); OneStep(s, steps[0]); }
      EndsAsSent(s1, steps[1..], t);
    }
  }

  lemma OneStep(s: State, step: Step)
    requires Enabled(s, step)
    ensures IsRun(s, [step]) && After(s, [step]) == Apply(s, step)
  {
    assert [step][1..] == [];
  }

  // ------------------------------------------------------------ a call's own failure

  // The call is on its way to return `why`, or has.
  predicate Returning(task: Task, why: Return) {
    || task.pc == Failing(why) || task.pc == Marked(why) || task.pc == Draining(why) || task.pc == Leaving(why)
    || task.pc == Done(why) || task.pc == Done(Cancelled)
  }

  lemma {:induction false} StaysReturning(s: State, steps: seq<Step>, t: TaskIx, why: Return)
    requires IsRun(s, steps) && t < |s.tasks| && Returning(s.tasks[t], why)
    ensures t < |After(s, steps).tasks| && Returning(After(s, steps).tasks[t], why)
    decreases |steps|
  {
    if steps != [] { StaysReturning(Apply(s, steps[0]), steps[1..], t, why); }
  }

  // A failing call returns the error of its write, the timeout of its wait, or that its
  // parameters did not serialize, and nothing else, unless it is dropped before.
  lemma FailureIsReturned(s: State, t: TaskIx, a: Action, steps: seq<Step>)
    requires TaskEnabled(s, t, a) && IsRun(ApplyTask(s, t, a), steps)
    requires a.WriteFails? || a.Expire? || a.SerializeFails?
    ensures var end := After(ApplyTask(s, t, a), steps);
            && t < |end.tasks|
            && (a.WriteFails? ==> Returning(end.tasks[t], a.cause))
            && (a.Expire? ==> Returning(end.tasks[t], ResponseTimedOut))
            && (a.SerializeFails? ==> end.tasks[t].pc == Done(NotSerialized) || end.tasks[t].pc == Done(Cancelled))
  {
    var why := if a.WriteFails? then a.cause else if a.Expire? then ResponseTimedOut else NotSerialized;
    StaysReturning(ApplyTask(s, t, a), steps, t, why);
    if a.SerializeFails? { DoneForGood(ApplyTask(s, t, a), steps, t); }
  }

  lemma {:induction false} DoneForGood(s: State, steps: seq<Step>, t: TaskIx)
    requires IsRun(s, steps) && t < |s.tasks| && s.tasks[t].pc.Done?
    ensures t < |After(s, steps).tasks| && After(s, steps).tasks[t] == s.tasks[t]
    decreases |steps|
  {
    if steps != [] { DoneForGood(Apply(s, steps[0]), steps[1..], t); }
  }

  // A frame written to the end: a notification is over, a request waits.
  lemma WrittenFrame(s: State, t: TaskIx)
    requires TaskEnabled(s, t, WriteDone)
    ensures var task := ApplyTask(s, t, WriteDone).tasks[t];
            task.pc == if s.tasks[t].kind.Notification? then Done(NotificationSent) else Waiting
  {
  }

  // A check of an open client lets the call through, one of a closed client refuses it.
  lemma CheckDecides(s: State, t: TaskIx)
    requires TaskEnabled(s, t, CheckClosed)
    ensures ApplyTask(s, t, CheckClosed).tasks[t].pc == if s.closed then Done(Closed) else Checked
  {
  }
}
