/** The invariant of the correlation client, kept by every step of every interleaving. */
module RpcInvariant {
  import opened Bytes
  import opened FramingTheorems
  import opened RpcClient

  // ------------------------------------------------------------- per-task facts

  predicate NoIdYet(pc: Pc) {
    pc.Start? || pc.Checked?
  }

  // A request past registration. A refused call has no id.
  predicate Inserted(task: Task) {
    task.kind.Request? && task.id != 0 && !NoIdYet(task.pc) && !task.pc.Allocated?
  }

  predicate TaskOk(task: Task) {
    && (NoIdYet(task.pc) ==> task.id == 0)
    && (task.id == 0 ==> NoIdYet(task.pc) || task.pc == Done(Closed))
    && (task.pc.Registered? || task.pc.Waiting? || task.pc.Leaving? ==> task.kind.Request?)
    && (task.pc.Leaving? ==> task.pc.why.ResponseTimedOut?)
    && (task.pc.Failing? || task.pc.Marked? || task.pc.Draining? ==>
          task.pc.why.WriteFailed? || task.pc.why.WriteTimedOut?)
  }

  // A call that returned and may have left its sender in the map.
  predicate Leaked(task: Task) {
    task.pc == Done(NotSerialized) || task.pc == Done(Cancelled)
  }

  // Its sender may be in the map: of the calls that are over, leaked ones only.
  predicate MayBePending(task: Task) {
    Inserted(task) && !task.pc.Draining? && (task.pc.Done? ==> Leaked(task))
  }

  // It registered a sender that nobody but a drain or a response may take out.
  predicate Registrant(task: Task) {
    Inserted(task) && !task.pc.Leaving? && task.pc != Done(ResponseTimedOut) && task.pc != Done(Cancelled)
  }

  // -------------------------------------------------------------- the invariant

  // Each allocated id has one owner and each task at most one id.
  ghost predicate IdsOk(nextId: Id, owner: map<Id, TaskIx>, tasks: seq<Task>) {
    && nextId > 0
    && (forall i :: i in owner ==> 0 < i < nextId && owner[i] < |tasks| && tasks[owner[i]].id == i)
    && (forall t :: 0 <= t < |tasks| && tasks[t].id != 0 ==> tasks[t].id in owner && owner[tasks[t].id] == t)
    && (forall t :: 0 <= t < |tasks| ==> TaskOk(tasks[t]))
  }

  predicate Somewhere(w: Waiters, i: Id) {
    i in w.pending || i in w.hands || i in w.sent
  }

  predicate Apart(w: Waiters) {
    w.pending !! w.hands.Keys && w.pending !! w.sent.Keys && w.hands.Keys !! w.sent.Keys
  }

  // Every sender belongs to a registered request and is in one place; none is lost.
  ghost predicate WaitersOk(w: Waiters, owner: map<Id, TaskIx>, tasks: seq<Task>) {
    && Apart(w)
    && (forall i :: Somewhere(w, i) ==> i in owner && owner[i] < |tasks| && Inserted(tasks[owner[i]]))
    && (forall i :: i in w.pending ==> i in owner && owner[i] < |tasks| && MayBePending(tasks[owner[i]]))
    && (forall t :: 0 <= t < |tasks| && Registrant(tasks[t]) ==> Somewhere(w, tasks[t].id))
  }

  // Taken senders are held by an actor that is about to use them.
  ghost predicate HandsOk(w: Waiters, tasks: seq<Task>, r: ReadLoop) {
    && (forall i :: i in w.hands && w.hands[i].Caller? ==> w.hands[i].t < |tasks| && tasks[w.hands[i].t].pc.Draining?)
    && (forall i :: i in w.hands && w.hands[i].TheReader? ==> r.ExitDraining? || (r.Delivering? && r.id == i))
    && (r.Delivering? ==> r.id in w.hands && w.hands[r.id].TheReader?)
  }

  predicate ReturnOk(task: Task, w: Waiters) {
    && (task.pc.Done? && task.pc.ret.Answered? ==>
          task.id != 0 && task.id in w.sent && w.sent[task.id] == Response(task.pc.ret.frame))
    && (task.pc == Done(Closed) && task.id != 0 ==> task.id in w.sent && w.sent[task.id] == ConnectionClosed)
  }

  // Every answer, sent or returned, is in a frame carrying the id of its request.
  ghost predicate AnswersOk(w: Waiters, tasks: seq<Task>, r: ReadLoop, frames: seq<Id>) {
    && (forall i :: i in w.sent && w.sent[i].Response? ==> w.sent[i].frame < |frames| && frames[w.sent[i].frame] == i)
    && (r.Delivering? ==> r.answer < |frames| && frames[r.answer] == r.id)
    && (forall t :: 0 <= t < |tasks| ==> ReturnOk(tasks[t], w))
  }

  // The part of the frame being written that is already on the wire.
  function InProgress(lock: Option<Actor>, tasks: seq<Task>, r: ReadLoop): seq<Byte> {
    match lock
    case None => []
    case Some(TheReader) => if r.AckWriting? && r.written <= |r.frame| then r.frame[..r.written] else []
    case Some(Caller(t)) =>
      if t < |tasks| && tasks[t].pc.Writing? && tasks[t].pc.written <= |tasks[t].pc.frame|
      then tasks[t].pc.frame[..tasks[t].pc.written] else []
  }

  // The printer is a parameter of what is said about the wire.
  type Printer = seq<Byte> -> seq<Byte>

  predicate TaskWrites(printer: Printer, task: Task) {
    task.pc.Writing? ==> task.pc.written <= |task.pc.frame| && task.pc.frame == printer(task.pc.body)
  }

  // The lock is held by exactly the actor that is writing; up to the first torn write
  // the wire is whole frames and the start of the one in progress.
  ghost predicate WireOk(printer: Printer, w: Writer, tasks: seq<Task>, r: ReadLoop) {
    && (forall t :: 0 <= t < |tasks| ==> TaskWrites(printer, tasks[t]))
    && (forall t :: 0 <= t < |tasks| && tasks[t].pc.Writing? ==> w.lock == Some(Caller(t)))
    && (r.AckWriting? ==> w.lock == Some(TheReader) && r.written <= |r.frame| && r.frame == printer(r.body))
    && (w.lock.Some? ==>
          match w.lock.value
          case TheReader => r.AckWriting?
          case Caller(t) => t < |tasks| && tasks[t].pc.Writing?)
    && (!w.torn ==> w.wire == Concat(printer, w.whole) + InProgress(w.lock, tasks, r))
  }

  ghost predicate Inv(s: State) {
    && IdsOk(s.nextId, s.owner, s.tasks)
    && WaitersOk(s.waiters, s.owner, s.tasks)
    && HandsOk(s.waiters, s.tasks, s.reader)
    && AnswersOk(s.waiters, s.tasks, s.reader, s.frames)
    && WireOk(EncodeFrame, s.writer, s.tasks, s.reader)
  }

  lemma InitialOk()
    ensures Inv(INITIAL)
  {
  }

  lemma SpawnWire(printer: Printer, w: Writer, tasks: seq<Task>, r: ReadLoop, task: Task)
    requires WireOk(printer, w, tasks, r) && task.pc.Start?
    ensures WireOk(printer, w, tasks + [task], r)
  {
    assert InProgress(w.lock, tasks + [task], r) == InProgress(w.lock, tasks, r);
  }

  lemma SpawnKeeps(s: State, kind: Kind)
    requires Inv(s)
    ensures Inv(Apply(s, Spawn(kind)))
  {
    var task := Task(kind, 0, Start);
    var tasks := s.tasks + [task];
    assert IdsOk(s.nextId, s.owner, tasks);
    assert WaitersOk(s.waiters, s.owner, tasks);
    assert HandsOk(s.waiters, tasks, s.reader);
    assert AnswersOk(s.waiters, tasks, s.reader, s.frames);
    SpawnWire(EncodeFrame, s.writer, s.tasks, s.reader, task);
  }

  // --------------------------------------------------------------- task actions

  // The receive-error arm of `request` is dead code: while a request waits, its
  // sender is in the map, in an actor's hands, or used, and never dropped.
  lemma SenderNeverGone(s: State, t: TaskIx)
    requires Inv(s)
    ensures !TaskEnabled(s, t, SenderGone)
  {
    if t < |s.tasks| && s.tasks[t].pc.Waiting? {
      assert TaskOk(s.tasks[t]);
      assert Registrant(s.tasks[t]);
    }
  }

  lemma TaskIdsKept(s: State, t: TaskIx, a: Action)
    requires Inv(s) && TaskEnabled(s, t, a)
    ensures var s' := ApplyTask(s, t, a); IdsOk(s'.nextId, s'.owner, s'.tasks)
  {
    SenderNeverGone(s, t);
    assert TaskOk(s.tasks[t]);
    assert TaskOk(TaskAfter(s, t, a));
  }

  // A task moves on and its sender stays where it is.
  lemma TaskMoves(w: Waiters, owner: map<Id, TaskIx>, tasks: seq<Task>, t: TaskIx, task: Task)
    requires WaitersOk(w, owner, tasks) && t < |tasks| && task.id == tasks[t].id
    requires forall i :: i in owner && owner[i] == t ==> i == task.id
    requires Inserted(tasks[t]) ==> Inserted(task)
    requires MayBePending(tasks[t]) && task.id in w.pending ==> MayBePending(task)
    requires Registrant(task) ==> Registrant(tasks[t])
    ensures WaitersOk(w, owner, tasks[t := task])
  {
  }

  lemma TakeAllWaiters(w: Waiters, owner: map<Id, TaskIx>, tasks: seq<Task>, a: Actor)
    requires WaitersOk(w, owner, tasks)
    ensures WaitersOk(TakeAll(w, a), owner, tasks)
  {
    assert forall i :: Somewhere(w, i) == Somewhere(TakeAll(w, a), i);
  }

  lemma TakeOneWaiters(w: Waiters, owner: map<Id, TaskIx>, tasks: seq<Task>, id: Id)
    requires WaitersOk(w, owner, tasks) && id in w.pending
    ensures WaitersOk(TakeOne(w, id), owner, tasks)
  {
    assert forall i :: Somewhere(w, i) == Somewhere(TakeOne(w, id), i);
  }

  lemma UseWaiters(w: Waiters, owner: map<Id, TaskIx>, tasks: seq<Task>, id: Id, o: Outcome)
    requires WaitersOk(w, owner, tasks) && id in w.hands
    ensures WaitersOk(Use(w, id, o), owner, tasks)
  {
    assert forall i :: Somewhere(w, i) == Somewhere(Use(w, id, o), i);
  }

  lemma RegisterWaiters(s: State, t: TaskIx)
    requires Inv(s) && TaskEnabled(s, t, Register)
    ensures var s' := ApplyTask(s, t, Register); WaitersOk(s'.waiters, s'.owner, s'.tasks)
  {
    var was, s' := s.tasks[t], ApplyTask(s, t, Register);
    assert TaskOk(was) && !Inserted(was) && !Somewhere(s.waiters, was.id);
    assert MayBePending(s'.tasks[t]) && s'.tasks[t].id == was.id;
    assert forall i :: Somewhere(s'.waiters, i) == (Somewhere(s.waiters, i) || i == was.id);
  }

  lemma RemoveOwnWaiters(s: State, t: TaskIx)
    requires Inv(s) && TaskEnabled(s, t, RemoveOwn)
    ensures var s' := ApplyTask(s, t, RemoveOwn); WaitersOk(s'.waiters, s'.owner, s'.tasks)
  {
    var was, s' := s.tasks[t], ApplyTask(s, t, RemoveOwn);
    assert TaskOk(was) && !Registrant(was) && !Registrant(s'.tasks[t]);
    assert Inserted(was) ==> Inserted(s'.tasks[t]);
    assert forall i :: Somewhere(s'.waiters, i) ==> Somewhere(s.waiters, i);
    forall u | 0 <= u < |s.tasks| && u != t && Registrant(s.tasks[u]) ensures s.tasks[u].id != was.id {}
  }

  // Actions that neither give the task an id nor move its sender.
  predicate Plain(a: Action) {
    !a.AllocateId? && !a.Register? && !a.SendClosed? && !a.RemoveOwn? && !a.SenderGone?
  }

  lemma PlainTask(s: State, t: TaskIx, a: Action)
    requires TaskEnabled(s, t, a) && TaskOk(s.tasks[t]) && Apart(s.waiters) && Plain(a)
    ensures var was, now := s.tasks[t], TaskAfter(s, t, a);
            && now.id == was.id
            && (Inserted(was) ==> Inserted(now))
            && (MayBePending(was) && was.id in WaitersAfter(s, t, a).pending ==> MayBePending(now))
            && (Registrant(now) ==> Registrant(was))
  {
  }

  lemma PlainWaiters(s: State, t: TaskIx, a: Action)
    requires Inv(s) && TaskEnabled(s, t, a) && Plain(a)
    ensures WaitersOk(WaitersAfter(s, t, a), s.owner, s.tasks[t := TaskAfter(s, t, a)])
  {
    if a.TakePending? {
      TakeAllWaiters(s.waiters, s.owner, s.tasks, Caller(t));
    }
    assert TaskOk(s.tasks[t]);
    PlainTask(s, t, a);
    TaskMoves(WaitersAfter(s, t, a), s.owner, s.tasks, t, TaskAfter(s, t, a));
  }

  lemma TaskWaitersKept(s: State, t: TaskIx, a: Action)
    requires Inv(s) && TaskEnabled(s, t, a) && !a.AllocateId?
    ensures var s' := ApplyTask(s, t, a); WaitersOk(s'.waiters, s'.owner, s'.tasks)
  {
    SenderNeverGone(s, t);
    if a.Register? {
      RegisterWaiters(s, t);
    } else if a.RemoveOwn? {
      RemoveOwnWaiters(s, t);
    } else if a.SendClosed? {
      UseWaiters(s.waiters, s.owner, s.tasks, a.to, ConnectionClosed);
      assert s.tasks[t := TaskAfter(s, t, a)] == s.tasks;
    } else {
      PlainWaiters(s, t, a);
    }
  }

  lemma AllocateWaiters(s: State, t: TaskIx)
    requires Inv(s) && TaskEnabled(s, t, AllocateId)
    ensures var s' := ApplyTask(s, t, AllocateId); WaitersOk(s'.waiters, s'.owner, s'.tasks)
  {
    assert TaskOk(s.tasks[t]);
    assert s.nextId !in s.owner;
  }

  // A task that stays in its drain, or has nothing in hand, does not lose a sender.
  lemma TaskMovesHands(w: Waiters, tasks: seq<Task>, r: ReadLoop, t: TaskIx, task: Task)
    requires HandsOk(w, tasks, r) && t < |tasks|
    requires tasks[t].pc.Draining? ==> task.pc.Draining? || Caller(t) !in w.hands.Values
    ensures HandsOk(w, tasks[t := task], r)
  {
    forall i | i in w.hands && w.hands[i] == Caller(t) ensures task.pc.Draining? {}
  }

  lemma DrainHands(w: Waiters, tasks: seq<Task>, r: ReadLoop, t: TaskIx)
    requires HandsOk(w, tasks, r) && Apart(w) && t < |tasks| && tasks[t].pc.Draining?
    ensures HandsOk(TakeAll(w, Caller(t)), tasks, r)
  {
  }

  lemma SendHands(w: Waiters, tasks: seq<Task>, r: ReadLoop, i: Id, o: Outcome)
    requires HandsOk(w, tasks, r) && i in w.hands && w.hands[i].Caller?
    ensures HandsOk(Use(w, i, o), tasks, r)
  {
  }

  lemma TaskHandsKept(s: State, t: TaskIx, a: Action)
    requires HandsOk(s.waiters, s.tasks, s.reader) && Apart(s.waiters) && TaskEnabled(s, t, a)
    ensures var s' := ApplyTask(s, t, a); HandsOk(s'.waiters, s'.tasks, s'.reader)
  {
    var now := TaskAfter(s, t, a);
    TaskMovesHands(s.waiters, s.tasks, s.reader, t, now);
    if a.TakePending? {
      DrainHands(s.waiters, s.tasks[t := now], s.reader, t);
    } else if a.SendClosed? {
      SendHands(s.waiters, s.tasks[t := now], s.reader, a.to, ConnectionClosed);
    }
  }

  // Senders stay used, as they were; a drain adds no response.
  ghost predicate SentGrows(w: Waiters, w': Waiters) {
    && (forall i :: i in w.sent ==> i in w'.sent && w'.sent[i] == w.sent[i])
    && (forall i :: i in w'.sent && w'.sent[i].Response? ==> i in w.sent)
  }

  lemma TaskMovesAnswers(w: Waiters, w': Waiters, tasks: seq<Task>, r: ReadLoop, frames: seq<Id>, t: TaskIx, task: Task)
    requires AnswersOk(w, tasks, r, frames) && SentGrows(w, w') && t < |tasks| && ReturnOk(task, w')
    ensures AnswersOk(w', tasks[t := task], r, frames)
  {
    var tasks' := tasks[t := task];
    forall u | 0 <= u < |tasks'| ensures ReturnOk(tasks'[u], w') {
      assert u != t ==> tasks'[u] == tasks[u] && ReturnOk(tasks[u], w);
    }
  }

  lemma TaskReturn(s: State, t: TaskIx, a: Action)
    requires TaskEnabled(s, t, a) && !a.SenderGone? && TaskOk(s.tasks[t]) && ReturnOk(s.tasks[t], s.waiters)
    requires SentGrows(s.waiters, WaitersAfter(s, t, a))
    ensures ReturnOk(TaskAfter(s, t, a), WaitersAfter(s, t, a))
  {
  }

  lemma TaskAnswersKept(s: State, t: TaskIx, a: Action)
    requires Inv(s) && TaskEnabled(s, t, a)
    ensures var s' := ApplyTask(s, t, a); AnswersOk(s'.waiters, s'.tasks, s'.reader, s'.frames)
  {
    SenderNeverGone(s, t);
    assert TaskOk(s.tasks[t]) && ReturnOk(s.tasks[t], s.waiters);
    assert SentGrows(s.waiters, WaitersAfter(s, t, a));
    TaskReturn(s, t, a);
    TaskMovesAnswers(s.waiters, WaitersAfter(s, t, a), s.tasks, s.reader, s.frames, t, TaskAfter(s, t, a));
  }

  lemma ReleaseKeepsWhole(printer: Printer, w: Writer, body: seq<Byte>, frame: seq<Byte>, written: nat)
    requires frame == printer(body) && written <= |frame|
    requires !w.torn ==> w.wire == Concat(printer, w.whole) + frame[..written]
    ensures var w' := Release(w, body, frame, written);
            !w'.torn ==> w'.wire == Concat(printer, w'.whole)
  {
    ConcatAppend(printer, w.whole, body);
    assert written == |frame| ==> frame[..written] == frame;
    assert written == 0 ==> frame[..written] == [];
  }

  // A task that is not writing moves on without starting to write.
  lemma OtherWire(printer: Printer, w: Writer, tasks: seq<Task>, r: ReadLoop, t: TaskIx, task: Task)
    requires WireOk(printer, w, tasks, r) && t < |tasks| && !tasks[t].pc.Writing? && !task.pc.Writing?
    ensures WireOk(printer, w, tasks[t := task], r)
  {
    assert InProgress(w.lock, tasks[t := task], r) == InProgress(w.lock, tasks, r);
  }

  // The writing task leaves its write.
  lemma ReleaseWire(printer: Printer, w: Writer, tasks: seq<Task>, r: ReadLoop, t: TaskIx, task: Task)
    requires WireOk(printer, w, tasks, r) && t < |tasks| && tasks[t].pc.Writing? && !task.pc.Writing?
    ensures var pc := tasks[t].pc; WireOk(printer, Release(w, pc.body, pc.frame, pc.written), tasks[t := task], r)
  {
    var pc := tasks[t].pc;
    assert TaskWrites(printer, tasks[t]) && w.lock == Some(Caller(t));
    ReleaseKeepsWhole(printer, w, pc.body, pc.frame, pc.written);
    var w' := Release(w, pc.body, pc.frame, pc.written);
    assert InProgress(w'.lock, tasks[t := task], r) == [];
  }

  // The task takes the lock and starts a frame.
  lemma LockWire(printer: Printer, w: Writer, tasks: seq<Task>, r: ReadLoop, t: TaskIx, task: Task)
    requires WireOk(printer, w, tasks, r) && t < |tasks| && w.lock.None?
    requires task.pc.Writing? && task.pc.frame == printer(task.pc.body) && task.pc.written == 0
    ensures WireOk(printer, w.(lock := Some(Caller(t))), tasks[t := task], r)
  {
    assert task.pc.frame[..0] == [];
  }

  // The writing task puts `n` more bytes on the wire.
  lemma WriteSomeWire(printer: Printer, w: Writer, tasks: seq<Task>, r: ReadLoop, t: TaskIx, n: nat)
    requires WireOk(printer, w, tasks, r) && t < |tasks| && tasks[t].pc.Writing?
    requires tasks[t].pc.written + n <= |tasks[t].pc.frame|
    ensures var pc := tasks[t].pc;
            WireOk(printer, Put(w, pc.frame[pc.written..pc.written + n]),
                   tasks[t := tasks[t].(pc := pc.(written := pc.written + n))], r)
  {
    var pc := tasks[t].pc;
    assert TaskWrites(printer, tasks[t]) && w.lock == Some(Caller(t));
    assert pc.frame[..pc.written + n] == pc.frame[..pc.written] + pc.frame[pc.written..pc.written + n];
  }

  lemma TaskWireKept(s: State, t: TaskIx, a: Action)
    requires Inv(s) && TaskEnabled(s, t, a)
    ensures var s' := ApplyTask(s, t, a); WireOk(EncodeFrame, s'.writer, s'.tasks, s'.reader)
  {
    if a.LockWriter? {
      LockWire(EncodeFrame, s.writer, s.tasks, s.reader, t, TaskAfter(s, t, a));
    } else if a.WriteSome? {
      WriteSomeWire(EncodeFrame, s.writer, s.tasks, s.reader, t, a.n);
    } else if s.tasks[t].pc.Writing? {
      ReleaseWire(EncodeFrame, s.writer, s.tasks, s.reader, t, TaskAfter(s, t, a));
    } else {
      OtherWire(EncodeFrame, s.writer, s.tasks, s.reader, t, TaskAfter(s, t, a));
    }
  }

  lemma TaskKeeps(s: State, t: TaskIx, a: Action)
    requires Inv(s) && TaskEnabled(s, t, a)
    ensures Inv(ApplyTask(s, t, a))
  {
    TaskIdsKept(s, t, a);
    if a.AllocateId? { AllocateWaiters(s, t); } else { TaskWaitersKept(s, t, a); }
    TaskHandsKept(s, t, a);
    TaskAnswersKept(s, t, a);
    TaskWireKept(s, t, a);
  }

  // --------------------------------------------------------------- reader events

  lemma ReaderWaitersKept(s: State, e: Event)
    requires Inv(s) && ReaderEnabled(s, e)
    ensures var s' := ApplyReader(s, e); WaitersOk(s'.waiters, s'.owner, s'.tasks)
  {
    match e {
      case ResponseFrame(id) =>
        if id in s.waiters.pending { TakeOneWaiters(s.waiters, s.owner, s.tasks, id); }
      case Deliver => UseWaiters(s.waiters, s.owner, s.tasks, s.reader.id, Response(s.reader.answer));
      case ReaderTakes => TakeAllWaiters(s.waiters, s.owner, s.tasks, TheReader);
      case ReaderSends(to) => UseWaiters(s.waiters, s.owner, s.tasks, to, ConnectionClosed);
      case _ =>
    }
  }

  lemma ReaderHandsKept(s: State, e: Event)
    requires Inv(s) && ReaderEnabled(s, e)
    ensures var s' := ApplyReader(s, e); HandsOk(s'.waiters, s'.tasks, s'.reader)
  {
  }

  lemma ReaderAnswersKept(s: State, e: Event)
    requires Inv(s) && ReaderEnabled(s, e)
    ensures var s' := ApplyReader(s, e); AnswersOk(s'.waiters, s'.tasks, s'.reader, s'.frames)
  {
    forall t | 0 <= t < |s.tasks| ensures ReturnOk(s.tasks[t], ApplyReader(s, e).waiters) {
      assert ReturnOk(s.tasks[t], s.waiters);
    }
  }

  // The read loop leaves its write.
  lemma ReaderReleases(printer: Printer, w: Writer, tasks: seq<Task>, r: ReadLoop)
    requires WireOk(printer, w, tasks, r) && r.AckWriting?
    ensures WireOk(printer, Release(w, r.body, r.frame, r.written), tasks, Reading)
  {
    ReleaseKeepsWhole(printer, w, r.body, r.frame, r.written);
    var w' := Release(w, r.body, r.frame, r.written);
    assert InProgress(w'.lock, tasks, Reading) == [];
  }

  lemma ReaderWrites(printer: Printer, w: Writer, tasks: seq<Task>, r: ReadLoop, n: nat)
    requires WireOk(printer, w, tasks, r) && r.AckWriting? && r.written + n <= |r.frame|
    ensures WireOk(printer, Put(w, r.frame[r.written..r.written + n]), tasks, r.(written := r.written + n))
  {
    assert r.frame[..r.written + n] == r.frame[..r.written] + r.frame[r.written..r.written + n];
  }

  lemma ReaderLocks(printer: Printer, w: Writer, tasks: seq<Task>, r: ReadLoop)
    requires WireOk(printer, w, tasks, r) && r.AckReady? && w.lock.None?
    ensures WireOk(printer, w.(lock := Some(TheReader)), tasks, AckWriting(r.body, printer(r.body), 0))
  {
    assert printer(r.body)[..0] == [];
  }

  lemma ReaderElsewhere(printer: Printer, w: Writer, tasks: seq<Task>, r: ReadLoop, r': ReadLoop)
    requires WireOk(printer, w, tasks, r) && !r.AckWriting? && !r'.AckWriting?
    ensures WireOk(printer, w, tasks, r')
  {
    assert InProgress(w.lock, tasks, r') == InProgress(w.lock, tasks, r);
  }

  lemma ReaderWireKept(s: State, e: Event)
    requires Inv(s) && ReaderEnabled(s, e)
    ensures var s' := ApplyReader(s, e); WireOk(EncodeFrame, s'.writer, s'.tasks, s'.reader)
  {
    var w, r := s.writer, s.reader;
    if e.AckSome? {
      ReaderWrites(EncodeFrame, w, s.tasks, r, e.n);
    } else if r.AckWriting? {
      ReaderReleases(EncodeFrame, w, s.tasks, r);
    } else if e.AckLock? {
      ReaderLocks(EncodeFrame, w, s.tasks, r);
    } else {
      ReaderElsewhere(EncodeFrame, w, s.tasks, r, ApplyReader(s, e).reader);
    }
  }

  lemma StepKeeps(s: State, step: Step)
    requires Inv(s) && Enabled(s, step)
    ensures Inv(Apply(s, step))
  {
    match step {
      case Spawn(kind) => SpawnKeeps(s, kind);
      case ByTask(t, a) => TaskKeeps(s, t, a);
      case ByReader(e) =>
        ReaderWaitersKept(s, e);
        ReaderHandsKept(s, e);
        ReaderAnswersKept(s, e);
        ReaderWireKept(s, e);
    }
  }

  // Every state of every run satisfies the invariant.
  lemma {:induction false} RunKeeps(s: State, steps: seq<Step>)
    requires Inv(s) && IsRun(s, steps)
    ensures Inv(After(s, steps))
    decreases |steps|
  {
    if steps != [] {
      StepKeeps(s, steps[0]);
      RunKeeps(Apply(s, steps[0]), steps[1..]);
    }
  }
}
