/** What the correlation client guarantees in every reachable state and on every run. */
module RpcTheorems {
  import opened Bytes
  import opened Framing
  import opened FramingTheorems
  import opened RpcClient
  import opened RpcInvariant

  ghost predicate Reachable(s: State) {
    exists steps :: IsRun(INITIAL, steps) && After(INITIAL, steps) == s
  }

  lemma ReachableOk(s: State)
    requires Reachable(s)
    ensures Inv(s)
  {
    var steps :| IsRun(INITIAL, steps) && After(INITIAL, steps) == s;
    InitialOk();
    RunKeeps(INITIAL, steps);
  }

  lemma {:induction false} RunThen(s: State, steps: seq<Step>, step: Step)
    requires IsRun(s, steps) && Enabled(After(s, steps), step)
    ensures IsRun(s, steps + [step]) && After(s, steps + [step]) == Apply(After(s, steps), step)
    decreases |steps|
  {
    if steps == [] {
      assert [step][1..] == [];
    } else {
      RunThen(Apply(s, steps[0]), steps[1..], step);
      assert (steps + [step])[1..] == steps[1..] + [step];
    }
  }

  // A step from a reachable state leads to a reachable state.
  lemma ReachableThen(s: State, step: Step)
    requires Reachable(s) && Enabled(s, step)
    ensures Reachable(Apply(s, step))
  {
    var steps :| IsRun(INITIAL, steps) && After(INITIAL, steps) == s;
    RunThen(INITIAL, steps, step);
  }

  // ------------------------------------------------------------------ correlation

  // A returned answer came in a frame carrying the request's own id, and no frame
  // answers two calls.
  lemma CorrelationSafety(s: State, t: TaskIx, u: TaskIx)
    requires Reachable(s)
    requires t < |s.tasks| && s.tasks[t].pc.Done? && s.tasks[t].pc.ret.Answered?
    requires u < |s.tasks| && s.tasks[u].pc.Done? && s.tasks[u].pc.ret.Answered?
    ensures s.tasks[t].pc.ret.frame < |s.frames| && s.frames[s.tasks[t].pc.ret.frame] == s.tasks[t].id != 0
    ensures s.tasks[t].pc.ret.frame == s.tasks[u].pc.ret.frame ==> t == u
  {
    ReachableOk(s);
    assert ReturnOk(s.tasks[t], s.waiters) && ReturnOk(s.tasks[u], s.waiters);
  }

  ghost predicate KeepsCompleted(s: State, s': State) {
    && |s.tasks| <= |s'.tasks|
    && (forall t :: 0 <= t < |s.tasks| && s.tasks[t].pc.Done? ==> s'.tasks[t] == s.tasks[t])
    && (forall i :: i in s.waiters.sent ==> i in s'.waiters.sent && s'.waiters.sent[i] == s.waiters.sent[i])
  }

  // A call that returned stays returned with the same result, and a used sender
  // is never used again: each request completes at most once.
  lemma {:induction false} CompletesOnce(s: State, steps: seq<Step>)
    requires Inv(s) && IsRun(s, steps)
    ensures KeepsCompleted(s, After(s, steps))
    decreases |steps|
  {
    if steps != [] {
      var s1 := Apply(s, steps[0]);
      StepKeeps(s, steps[0]);
      match steps[0] {
        case Spawn(_) =>
        case ByTask(t, a) => TaskCompletesOnce(s, t, a);
        case ByReader(e) => ReaderCompletesOnce(s, e);
      }
      CompletesOnce(s1, steps[1..]);
      assert forall t :: 0 <= t < |s.tasks| && s.tasks[t].pc.Done? ==> s1.tasks[t] == s.tasks[t];
    }
  }

  lemma TaskCompletesOnce(s: State, t: TaskIx, a: Action)
    requires Inv(s) && TaskEnabled(s, t, a)
    ensures KeepsCompleted(s, ApplyTask(s, t, a))
  {
  }

  lemma ReaderCompletesOnce(s: State, e: Event)
    requires Inv(s) && ReaderEnabled(s, e)
    ensures KeepsCompleted(s, ApplyReader(s, e))
  {
  }

  // ------------------------------------------------------------------ conservation

  // The sender of every request past registration is in exactly one of the map, an
  // actor's hands and the used ones, unless the call timed out or was cancelled;
  // then it is in at most one.
  lemma SenderConserved(s: State, t: TaskIx)
    requires Reachable(s)
    requires t < |s.tasks| && Inserted(s.tasks[t])
    ensures var w, i, pc := s.waiters, s.tasks[t].id, s.tasks[t].pc;
            && !(i in w.pending && i in w.hands) && !(i in w.pending && i in w.sent) && !(i in w.hands && i in w.sent)
            && (i in w.pending || i in w.hands || i in w.sent
                || pc == Leaving(ResponseTimedOut) || pc == Done(ResponseTimedOut) || pc == Done(Cancelled))
  {
    ReachableOk(s);
    assert TaskOk(s.tasks[t]);
  }

  // Before registration a request has no sender anywhere.
  lemma NoSenderYet(s: State, t: TaskIx)
    requires Reachable(s)
    requires t < |s.tasks| && s.tasks[t].pc.Allocated?
    ensures !Somewhere(s.waiters, s.tasks[t].id)
  {
    ReachableOk(s);
    assert TaskOk(s.tasks[t]);
  }

  ghost predicate AllReturned(s: State) {
    && (forall t :: 0 <= t < |s.tasks| ==> s.tasks[t].pc.Done?)
    && !s.reader.Delivering? && !s.reader.ExitDraining?
  }

  // Requests that failed to serialize and whose sender nobody used.
  ghost function Forgotten(s: State): set<Id> {
    set i | i in s.owner && s.owner[i] < |s.tasks| && s.tasks[s.owner[i]].kind.Request?
            && s.tasks[s.owner[i]].pc == Done(NotSerialized) && i !in s.waiters.sent
  }

  // Once every call has returned, what is left in the map is unused senders of calls
  // whose parameters failed to serialize or whose caller dropped them; the former are
  // all there. Without cancelled calls the map holds exactly those: it is empty if and
  // only if there is none.
  lemma Quiescence(s: State)
    requires Reachable(s) && AllReturned(s)
    ensures Forgotten(s) <= s.waiters.pending
    ensures forall i :: i in s.waiters.pending ==>
              && i in s.owner && s.owner[i] < |s.tasks| && i !in s.waiters.sent
              && s.tasks[s.owner[i]].kind.Request? && Leaked(s.tasks[s.owner[i]])
    ensures (forall t :: 0 <= t < |s.tasks| ==> s.tasks[t].pc != Done(Cancelled)) ==>
              s.waiters.pending == Forgotten(s)
  {
    ReachableOk(s);
    var w := s.waiters;
    forall i ensures i !in w.hands {}
    forall i | i in s.owner && i in Forgotten(s) ensures i in w.pending {
      var task := s.tasks[s.owner[i]];
      assert TaskOk(task) && Registrant(task);
    }
    forall i | i in w.pending ensures Leaked(s.tasks[s.owner[i]]) {
      assert TaskOk(s.tasks[s.owner[i]]);
    }
  }

  // ------------------------------------------------------------------ close protocol

  // Whoever failed a write has stored `closed`, and so has a read loop past its end.
  ghost predicate ClosedOk(s: State) {
    && (forall t :: 0 <= t < |s.tasks| ==> (FailedWrite(s.tasks[t]) ==> s.closed))
    && (s.reader.ExitMarked? || s.reader.ExitDraining? || s.reader.Exited? ==> s.closed)
  }

  predicate FailedWrite(task: Task) {
    task.pc.Marked? || task.pc.Draining?
    || (task.pc.Done? && (task.pc.ret.WriteFailed? || task.pc.ret.WriteTimedOut?))
  }

  lemma TaskCloses(s: State, t: TaskIx, a: Action)
    requires Inv(s) && ClosedOk(s) && TaskEnabled(s, t, a)
    ensures ClosedOk(ApplyTask(s, t, a))
  {
    assert TaskOk(s.tasks[t]);
    SenderNeverGone(s, t);
    assert FailedWrite(TaskAfter(s, t, a)) ==> FailedWrite(s.tasks[t]) || a.MarkClosed?;
  }

  lemma ReaderCloses(s: State, e: Event)
    requires ClosedOk(s) && ReaderEnabled(s, e)
    ensures ClosedOk(ApplyReader(s, e))
  {
  }

  lemma {:induction false} ClosedKept(s: State, steps: seq<Step>)
    requires Inv(s) && ClosedOk(s) && IsRun(s, steps)
    ensures ClosedOk(After(s, steps)) && (s.closed ==> After(s, steps).closed)
    decreases |steps|
  {
    if steps != [] {
      StepKeeps(s, steps[0]);
      match steps[0] {
        case Spawn(_) =>
        case ByTask(t, a) => TaskCloses(s, t, a);
        case ByReader(e) => ReaderCloses(s, e);
      }
      ClosedKept(Apply(s, steps[0]), steps[1..]);
    }
  }

  lemma ReachableClosedOk(s: State)
    requires Reachable(s)
    ensures ClosedOk(s)
  {
    var steps :| IsRun(INITIAL, steps) && After(INITIAL, steps) == s;
    InitialOk();
    ClosedKept(INITIAL, steps);
  }

  // `closed` is monotone, and it holds whenever a call has returned a write error.
  lemma WriteErrorCloses(s: State, steps: seq<Step>)
    requires Reachable(s) && IsRun(s, steps)
    ensures ClosedOk(s) && ClosedOk(After(s, steps)) && (s.closed ==> After(s, steps).closed)
  {
    ReachableOk(s);
    ReachableClosedOk(s);
    ClosedKept(s, steps);
  }

  // Refused or not yet asked: no id, no sender, no byte.
  predicate Untouched(task: Task) {
    task.id == 0 && (task.pc.Start? || task.pc == Done(Closed))
  }

  // After `closed` is stored, every call that has not checked it yet can only be
  // refused: it never gets an id and never writes.
  lemma {:induction false} RefusedAfterClose(s: State, steps: seq<Step>)
    requires Inv(s) && IsRun(s, steps) && s.closed
    ensures var s' := After(s, steps);
            && s'.closed && |s.tasks| <= |s'.tasks|
            && (forall t :: 0 <= t < |s'.tasks| && (t < |s.tasks| ==> Untouched(s.tasks[t])) ==> Untouched(s'.tasks[t]))
    decreases |steps|
  {
    if steps != [] {
      var s1 := Apply(s, steps[0]);
      StepKeeps(s, steps[0]);
      assert s1.closed && |s.tasks| <= |s1.tasks|;
      assert forall t :: 0 <= t < |s1.tasks| && (t < |s.tasks| ==> Untouched(s.tasks[t])) ==> Untouched(s1.tasks[t]);
      RefusedAfterClose(s1, steps[1..]);
    }
  }

  // A sender taken by a drain of `a`.
  ghost predicate Drained(s: State, i: Id, a: Actor) {
    && i in s.owner
    && i !in s.waiters.pending
    && (if i in s.waiters.sent then s.waiters.sent[i] == ConnectionClosed
        else i in s.waiters.hands && s.waiters.hands[i] == a)
    && (a.TheReader? ==> s.reader.ExitDraining? || s.reader.Exited?)
  }

  // A drained sender does not register again.
  lemma NotRegisteredAgain(s: State, t: TaskIx, i: Id)
    requires Inv(s) && TaskEnabled(s, t, Register) && Somewhere(s.waiters, i)
    ensures s.tasks[t].id != i
  {
    assert TaskOk(s.tasks[t]);
    assert Inserted(s.tasks[s.owner[i]]);
  }

  lemma TaskDrains(s: State, t: TaskIx, action: Action, i: Id, a: Actor)
    requires Inv(s) && TaskEnabled(s, t, action) && Drained(s, i, a)
    ensures Drained(ApplyTask(s, t, action), i, a)
  {
    assert s.nextId !in s.owner;
    assert Somewhere(s.waiters, i);
    if action.Register? { NotRegisteredAgain(s, t, i); }
  }

  lemma ReaderDrains(s: State, e: Event, i: Id, a: Actor)
    requires Inv(s) && ReaderEnabled(s, e) && Drained(s, i, a)
    ensures Drained(ApplyReader(s, e), i, a)
  {
  }

  // Each sender in the map at a drain is used by that drain, with a connection-closed
  // error and nothing else, and the drain does not end before it was.
  lemma {:induction false} DrainConsumes(s: State, steps: seq<Step>, i: Id, a: Actor)
    requires Inv(s) && IsRun(s, steps) && Drained(s, i, a)
    ensures var s' := After(s, steps);
            && Drained(s', i, a)
            && (a.TheReader? && s'.reader.Exited? ==> i in s'.waiters.sent)
            && (a.Caller? && a.t < |s'.tasks| && s'.tasks[a.t].pc.Done? ==> i in s'.waiters.sent)
    decreases |steps|
  {
    if steps != [] {
      StepKeeps(s, steps[0]);
      match steps[0] {
        case Spawn(_) =>
        case ByTask(t, action) => TaskDrains(s, t, action, i, a);
        case ByReader(e) => ReaderDrains(s, e, i, a);
      }
      DrainConsumes(Apply(s, steps[0]), steps[1..], i, a);
    }
  }

  lemma DrainTakesAll(s: State, step: Step, i: Id)
    requires Inv(s) && Enabled(s, step) && i in s.waiters.pending
    requires step == ByReader(ReaderTakes) || (step.ByTask? && step.action.TakePending?)
    ensures Drained(Apply(s, step), i, if step.ByReader? then TheReader else Caller(step.t))
  {
  }

  // Each sender in the map when a drain takes it, by the read loop or a failed call, is
  // used with connection-closed and nothing else, before that drain ends.
  lemma EachPendingDrained(s: State, step: Step, steps: seq<Step>, i: Id)
    requires Inv(s) && Enabled(s, step) && i in s.waiters.pending
    requires step == ByReader(ReaderTakes) || (step.ByTask? && step.action.TakePending?)
    requires IsRun(Apply(s, step), steps)
    ensures var s' := After(Apply(s, step), steps);
            && (i in s'.waiters.sent ==> s'.waiters.sent[i] == ConnectionClosed)
            && i !in s'.waiters.pending
            && (step.ByReader? && s'.reader.Exited? ==> i in s'.waiters.sent)
            && (step.ByTask? && step.t < |s'.tasks| && s'.tasks[step.t].pc.Done? ==> i in s'.waiters.sent)
  {
    StepKeeps(s, step);
    DrainTakesAll(s, step, i);
    DrainConsumes(Apply(s, step), steps, i, if step.ByReader? then TheReader else Caller(step.t));
  }

  predicate StreamOver(r: ReadLoop) {
    r.Exiting? || r.ExitMarked? || r.ExitDraining? || r.Exited?
  }

  ghost predicate NoNewResponse(s: State, s': State, i: Id) {
    && StreamOver(s'.reader) && s'.frames == s.frames
    && (i in s'.waiters.sent && s'.waiters.sent[i].Response? ==>
          i in s.waiters.sent && s.waiters.sent[i] == s'.waiters.sent[i])
  }

  lemma StepAfterEnd(s: State, step: Step, i: Id)
    requires Enabled(s, step) && StreamOver(s.reader)
    ensures NoNewResponse(s, Apply(s, step), i)
  {
  }

  // After the end of the peer's stream no request newly receives a response.
  lemma {:induction false} NoResponseAfterEnd(s: State, steps: seq<Step>, i: Id)
    requires IsRun(s, steps) && StreamOver(s.reader)
    ensures NoNewResponse(s, After(s, steps), i)
    decreases |steps|
  {
    if steps != [] {
      StepAfterEnd(s, steps[0], i);
      NoResponseAfterEnd(Apply(s, steps[0]), steps[1..], i);
    }
  }

  // ------------------------------------------------------------------ wire integrity

  // The body whose frame the step completes, if any.
  function Completes(s: State, step: Step): seq<seq<Byte>>
    requires Enabled(s, step)
  {
    match step
    case Spawn(_) => []
    case ByTask(t, a) =>
      var pc := s.tasks[t].pc;
      if (a.WriteDone? || a.WriteFails? || a.Cancel?) && pc.Writing? && pc.written == |pc.frame| then [pc.body] else []
    case ByReader(e) =>
      var r := s.reader;
      if (e.AckDone? || e.AckFails?) && r.AckWriting? && r.written == |r.frame| then [r.body] else []
  }

  // The step abandons a write strictly inside its frame.
  predicate Tears(s: State, step: Step)
    requires Enabled(s, step)
  {
    match step
    case Spawn(_) => false
    case ByTask(t, a) =>
      var pc := s.tasks[t].pc;
      (a.WriteFails? || a.Cancel?) && pc.Writing? && 0 < pc.written < |pc.frame|
    case ByReader(e) => e.AckFails? && s.reader.AckWriting? && 0 < s.reader.written < |s.reader.frame|
  }

  ghost predicate HistoryReal(s: State, step: Step)
    requires Enabled(s, step)
  {
    var w, w' := s.writer, Apply(s, step).writer;
    && w'.whole == w.whole + Completes(s, step)
    && (w'.torn <==> w.torn || Tears(s, step))
    && w.wire <= w'.wire
  }

  lemma TaskHistory(s: State, t: TaskIx, a: Action)
    requires Inv(s) && TaskEnabled(s, t, a)
    ensures HistoryReal(s, ByTask(t, a))
  {
    assert TaskWrites(EncodeFrame, s.tasks[t]);
    assert s.writer.whole + [] == s.writer.whole;
  }

  lemma ReaderHistory(s: State, e: Event)
    requires Inv(s) && ReaderEnabled(s, e)
    ensures HistoryReal(s, ByReader(e))
  {
    assert s.writer.whole + [] == s.writer.whole;
  }

  // The history fields say what they should: bodies are recorded when and only when
  // their frame is complete, and only an abandoned write tears the stream.
  lemma HistoryIsReal(s: State, step: Step)
    requires Inv(s) && Enabled(s, step)
    ensures HistoryReal(s, step)
  {
    match step {
      case Spawn(_) =>
      case ByTask(t, a) => TaskHistory(s, t, a);
      case ByReader(e) => ReaderHistory(s, e);
    }
  }

  // Until a write is torn, a peer that decodes the bytes written so far gets exactly
  // the completed bodies, in the order the lock was held, and is left with the start
  // of the frame in progress.
  lemma WireIntegrity(lossy: Lossy, end: StreamEnd, s: State)
    requires ExactOnAscii(lossy)
    requires Reachable(s) && !s.writer.torn
    requires forall k :: 0 <= k < |s.writer.whole| ==> |s.writer.whole[k]| <= MAX_BODY_BYTES
    ensures DecodeMany(lossy, s.writer.wire, end, |s.writer.whole|)
         == Some((s.writer.whole, InProgress(s.writer.lock, s.tasks, s.reader)))
  {
    ReachableOk(s);
    RoundTripMany(lossy, s.writer.whole, InProgress(s.writer.lock, s.tasks, s.reader), end);
  }

  lemma {:induction false} WireGrows(s: State, steps: seq<Step>)
    requires Inv(s) && IsRun(s, steps)
    ensures s.writer.wire <= After(s, steps).writer.wire
    decreases |steps|
  {
    if steps != [] {
      HistoryIsReal(s, steps[0]);
      StepKeeps(s, steps[0]);
      WireGrows(Apply(s, steps[0]), steps[1..]);
    }
  }

  // Whatever is torn or written over afterwards, the peer still gets the bodies
  // completed before the first tear.
  lemma CompletedSurvive(lossy: Lossy, end: StreamEnd, s: State, steps: seq<Step>)
    requires ExactOnAscii(lossy)
    requires Reachable(s) && !s.writer.torn && IsRun(s, steps)
    requires forall k :: 0 <= k < |s.writer.whole| ==> |s.writer.whole[k]| <= MAX_BODY_BYTES
    ensures var wire := After(s, steps).writer.wire;
            && EncodeAll(s.writer.whole) <= wire
            && DecodeMany(lossy, wire, end, |s.writer.whole|)
            == Some((s.writer.whole, wire[|EncodeAll(s.writer.whole)|..]))
  {
    ReachableOk(s);
    WireGrows(s, steps);
    var wire, sent := After(s, steps).writer.wire, EncodeAll(s.writer.whole);
    assert s.writer.wire == sent + InProgress(s.writer.lock, s.tasks, s.reader);
    assert wire == sent + wire[|sent|..];
    RoundTripMany(lossy, s.writer.whole, wire[|sent|..], end);
  }

  // ------------------------------------------------------ what does not hold

  // One more step of a run under construction.
  lemma Take(s: State, step: Step) returns (s': State)
    requires Reachable(s) && Enabled(s, step)
    ensures s' == Apply(s, step) && Reachable(s')
  {
    ReachableThen(s, step);
    s' := Apply(s, step);
  }

  lemma Started() returns (s: State)
    ensures s == INITIAL && Reachable(s)
  {
    s := INITIAL;
    assert IsRun(INITIAL, []) && After(INITIAL, []) == s;
  }

  // Up to the moment before task `t` registers, with the id it got.
  lemma Begin(s: State, t: TaskIx, kind: Kind) returns (s': State)
    requires Reachable(s) && !s.closed && t == |s.tasks|
    ensures Reachable(s')
    ensures s' == s.(tasks := s.tasks + [Task(kind, s.nextId, Allocated)], nextId := s.nextId + 1,
                     owner := s.owner[s.nextId := t])
  {
    var s1 := Take(s, Spawn(kind));
    var s2 := Take(s1, ByTask(t, CheckClosed));
    s' := Take(s2, ByTask(t, AllocateId));
    assert s'.tasks == s.tasks + [Task(kind, s.nextId, Allocated)];
  }

  // The leak is real: parameters that do not serialize leave the entry behind.
  lemma SerializationLeaks() returns (s: State)
    ensures Reachable(s) && AllReturned(s) && s.waiters.pending == {1}
  {
    s := Started();
    s := Begin(s, 0, Request);
    s := Take(s, ByTask(0, Register));
    s := Take(s, ByTask(0, SerializeFails));
  }

  // So does a caller that drops its request.
  lemma CancelLeaks() returns (s: State)
    ensures Reachable(s) && AllReturned(s) && s.waiters.pending == {1}
  {
    s := Started();
    s := Begin(s, 0, Request);
    s := Take(s, ByTask(0, Register));
    s := Take(s, ByTask(0, Serialize([])));
    s := Take(s, ByTask(0, Cancel));
  }

  function AfterWrite(task: Task): Task {
    task.(pc := if task.kind.Request? then Waiting else Done(NotificationSent))
  }

  // Writing one whole frame, from serialization to the release of the writer.
  lemma WriteWhole(s: State, t: TaskIx, body: seq<Byte>) returns (s': State)
    requires Reachable(s) && t < |s.tasks| && MaySerialize(s.tasks[t]) && s.writer.lock.None?
    ensures Reachable(s')
    ensures s'.writer == s.writer.(wire := s.writer.wire + EncodeFrame(body), whole := s.writer.whole + [body])
    ensures s'.tasks == s.tasks[t := AfterWrite(s.tasks[t])]
    ensures s'.closed == s.closed && s'.waiters == s.waiters && s'.reader == s.reader && s'.frames == s.frames
  {
    var frame := EncodeFrame(body);
    var s1 := Take(s, ByTask(t, Serialize(body)));
    var s2 := Take(s1, ByTask(t, LockWriter));
    assert s2.tasks[t].pc == Writing(body, frame, 0);
    var s3 := Take(s2, ByTask(t, WriteSome(|frame|)));
    assert frame[0..0 + |frame|] == frame;
    s' := Take(s3, ByTask(t, WriteDone));
  }

  // Call 0 has passed the check; call 1 fails its write.
  lemma FailingBehindACheck() returns (s: State)
    ensures Reachable(s)
    ensures s == INITIAL.(nextId := 2, owner := map[1 := 1],
                          tasks := [Task(Request, 0, Checked), Task(Notification, 1, Failing(WriteFailed))])
  {
    s := Started();
    s := Take(s, Spawn(Request));
    s := Take(s, ByTask(0, CheckClosed));
    assert s.tasks == [Task(Request, 0, Checked)];
    s := Begin(s, 1, Notification);
    s := Take(s, ByTask(1, Serialize([])));
    s := Take(s, ByTask(1, LockWriter));
    s := Take(s, ByTask(1, WriteFails(WriteFailed)));
  }

  // It closes the transport.
  lemma ClosedBehindACheck() returns (s: State)
    ensures Reachable(s) && s.closed
    ensures s.tasks == [Task(Request, 0, Checked), Task(Notification, 1, Done(WriteFailed))]
    ensures s == INITIAL.(nextId := 2, owner := map[1 := 1], closed := true, tasks := s.tasks)
  {
    s := FailingBehindACheck();
    s := Take(s, ByTask(1, MarkClosed));
    s := Take(s, ByTask(1, TakePending));
    s := Take(s, ByTask(1, FinishDrain));
  }

  // The late request inserts and writes.
  lemma LateRequestWaits(body: seq<Byte>) returns (s: State)
    ensures Reachable(s) && s.closed && s.writer.whole == [body] && s.reader == Reading && s.frames == []
    ensures s.tasks == [Task(Request, 2, Waiting), Task(Notification, 1, Done(WriteFailed))]
    ensures s.waiters == Waiters({2}, map[], map[])
  {
    var s0 := ClosedBehindACheck();
    var s1 := Take(s0, ByTask(0, AllocateId));
    var s2 := Take(s1, ByTask(0, Register));
    assert s2.tasks[0] == Task(Request, 2, Registered) && s2.waiters.pending == {2};
    s := WriteWhole(s2, 0, body);
  }

  // A request that passed the check before a close may insert and write after the
  // drain; the read loop still runs, so it may even be answered.
  lemma LateRequestAnswered(body: seq<Byte>) returns (s: State)
    ensures Reachable(s) && s.closed && s.writer.whole == [body]
    ensures |s.tasks| == 2 && s.tasks[0].pc == Done(Answered(0)) && s.tasks[1].pc == Done(WriteFailed)
  {
    var s3 := LateRequestWaits(body);
    var s4 := Take(s3, ByReader(ResponseFrame(2)));
    var s5 := Take(s4, ByReader(Deliver));
    assert s5.waiters.sent == map[2 := Response(0)];
    s := Take(s5, ByTask(0, Receive));
  }
}
