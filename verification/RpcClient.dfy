/**
 The correlation client as a transition system: any number of caller tasks, one
 read loop, an arbitrary peer. A step is what runs between two await points (or
 between two accesses to shared atomics), so every interleaving is a sequence of
 steps.
 */
module RpcClient {
  import opened Bytes
  import opened FramingTheorems

  type Id = nat
  type TaskIx = nat

  // What a one-shot sender was used for: the response in the peer's frame number
  // `frame`, or a connection-closed error from a drain.
  datatype Outcome = Response(frame: nat) | ConnectionClosed

  datatype Kind = Request | Notification

  // How a call ended. `Answered(k)` covers every result carried by frame `k`,
  // the peer's error result and a failed conversion of its value included.
  datatype Return =
    | Answered(frame: nat)
    | NotificationSent
    | Closed
    | WriteFailed
    | WriteTimedOut
    | ResponseTimedOut
    | NotSerialized
    | Cancelled

  datatype Pc =
    | Start                                   // about to load `closed`
    | Checked                                 // loaded false
    | Allocated                               // has an id
    | Registered                              // request only: sender inserted
    | Ready(body: seq<Byte>)                  // serialized, wants the writer
    | Writing(body: seq<Byte>, frame: seq<Byte>, written: nat)   // holds the writer
    | Failing(why: Return)                    // fail_transport: about to store `closed`
    | Marked(why: Return)                     // stored it, wants `pending`
    | Draining(why: Return)                   // sends to the senders it took
    | Waiting                                 // awaits the response
    | Leaving(why: Return)                    // about to remove its own entry
    | Done(ret: Return)

  // `id` is 0 until one is allocated; allocated ids start at 1.
  datatype Task = Task(kind: Kind, id: Id, pc: Pc)

  datatype ReadLoop =
    | Reading
    | Delivering(id: Id, answer: nat)         // removed the sender, about to send
    | AckReady(body: seq<Byte>)
    | AckWriting(body: seq<Byte>, frame: seq<Byte>, written: nat)
    | Exiting
    | ExitMarked
    | ExitDraining
    | Exited

  // Who holds a taken sender, or the writer lock.
  datatype Actor = TheReader | Caller(t: TaskIx)

  // Where a registered sender is: in the map, taken out by an actor, or used.
  datatype Waiters = Waiters(pending: set<Id>, hands: map<Id, Actor>, sent: map<Id, Outcome>)

  // The locked writer. `wire` is the bytes the peer was sent, `whole` the bodies whose
  // frames were written to the end, in the order the lock was held. `torn`: some write
  // was abandoned inside its frame.
  datatype Writer = Writer(lock: Option<Actor>, wire: seq<Byte>, whole: seq<seq<Byte>>, torn: bool)

  // `frames` is the id each response frame received so far carried, `owner` who
  // allocated an id.
  datatype State = State(
    nextId: Id,
    owner: map<Id, TaskIx>,
    closed: bool,
    tasks: seq<Task>,
    waiters: Waiters,
    reader: ReadLoop,
    frames: seq<Id>,
    writer: Writer)

  const INITIAL := State(1, map[], false, [], Waiters({}, map[], map[]), Reading, [], Writer(None, [], [], false))

  // ------------------------------------------------------------ sender moves

  // `drain`: every sender in the map moves to `a`.
  function TakeAll(w: Waiters, a: Actor): Waiters {
    Waiters({}, w.hands + map i | i in w.pending :: a, w.sent)
  }

  // `remove` by the read loop.
  function TakeOne(w: Waiters, id: Id): Waiters {
    Waiters(w.pending - {id}, w.hands[id := TheReader], w.sent)
  }

  function Use(w: Waiters, id: Id, outcome: Outcome): Waiters {
    Waiters(w.pending, w.hands - {id}, w.sent[id := outcome])
  }

  // ------------------------------------------------------------ writer moves

  function Put(w: Writer, bytes: seq<Byte>): Writer {
    w.(wire := w.wire + bytes)
  }

  // The lock is released with `written` bytes of the frame on the wire.
  function Release(w: Writer, body: seq<Byte>, frame: seq<Byte>, written: nat): Writer {
    if written == |frame| then w.(lock := None, whole := w.whole + [body])
    else w.(lock := None, torn := w.torn || written > 0)
  }

  // ------------------------------------------------------------- caller tasks

  datatype Action =
    | CheckClosed
    | AllocateId
    | Register
    | Serialize(bytes: seq<Byte>)
    | SerializeFails
    | LockWriter
    | WriteSome(n: nat)
    | WriteDone
    | WriteFails(cause: Return)
    | MarkClosed
    | TakePending
    | SendClosed(to: Id)
    | FinishDrain
    | Receive
    | SenderGone
    | Expire
    | RemoveOwn
    | Cancel

  predicate MaySerialize(task: Task) {
    if task.kind.Request? then task.pc.Registered? else task.pc.Allocated?
  }

  // Await points, where the caller may drop the future.
  predicate Cancellable(task: Task) {
    || (task.pc.Allocated? && task.kind.Request?)
    || task.pc.Ready? || task.pc.Writing? || task.pc.Marked? || task.pc.Waiting? || task.pc.Leaving?
  }

  predicate TaskEnabled(s: State, t: TaskIx, a: Action) {
    t < |s.tasks| &&
    var task, pc, w := s.tasks[t], s.tasks[t].pc, s.waiters;
    match a
    case CheckClosed => pc.Start?
    case AllocateId => pc.Checked?
    case Register => pc.Allocated? && task.kind.Request?
    case Serialize(_) => MaySerialize(task)
    case SerializeFails => MaySerialize(task)
    case LockWriter => pc.Ready? && s.writer.lock.None?
    case WriteSome(n) => pc.Writing? && pc.written + n <= |pc.frame|
    case WriteDone => pc.Writing? && pc.written == |pc.frame|
    // The deadline may also pass while the task waits for the lock.
    case WriteFails(cause) =>
      (pc.Writing? && cause.WriteFailed?) || ((pc.Writing? || pc.Ready?) && cause.WriteTimedOut?)
    case MarkClosed => pc.Failing?
    case TakePending => pc.Marked?
    case SendClosed(to) => pc.Draining? && to in w.hands && w.hands[to] == Caller(t)
    case FinishDrain => pc.Draining? && Caller(t) !in w.hands.Values
    case Receive => pc.Waiting? && task.id in w.sent
    case SenderGone => pc.Waiting? && task.id !in w.pending && task.id !in w.hands && task.id !in w.sent
    case Expire => pc.Waiting? && task.id !in w.sent
    case RemoveOwn => pc.Leaving?
    case Cancel => Cancellable(task)
  }

  function ReturnOf(o: Outcome): Return {
    match o
    case Response(k) => Answered(k)
    case ConnectionClosed => Closed
  }

  // The task after the action.
  function TaskAfter(s: State, t: TaskIx, a: Action): Task
    requires TaskEnabled(s, t, a)
  {
    var task, pc := s.tasks[t], s.tasks[t].pc;
    match a
    case CheckClosed => task.(pc := if s.closed then Done(Closed) else Checked)
    case AllocateId => task.(id := s.nextId, pc := Allocated)
    case Register => task.(pc := Registered)
    case Serialize(bytes) => task.(pc := Ready(bytes))
    case SerializeFails => task.(pc := Done(NotSerialized))
    case LockWriter => task.(pc := Writing(pc.body, EncodeFrame(pc.body), 0))
    case WriteSome(n) => task.(pc := pc.(written := pc.written + n))
    case WriteDone => task.(pc := if task.kind.Request? then Waiting else Done(NotificationSent))
    case WriteFails(cause) => task.(pc := Failing(cause))
    case MarkClosed => task.(pc := Marked(pc.why))
    case TakePending => task.(pc := Draining(pc.why))
    case SendClosed(_) => task
    case FinishDrain => task.(pc := Done(pc.why))
    case Receive => task.(pc := Done(ReturnOf(s.waiters.sent[task.id])))
    case SenderGone => task.(pc := Leaving(Closed))
    case Expire => task.(pc := Leaving(ResponseTimedOut))
    case RemoveOwn => task.(pc := Done(pc.why))
    case Cancel => task.(pc := Done(Cancelled))
  }

  // The senders after the action.
  function WaitersAfter(s: State, t: TaskIx, a: Action): Waiters
    requires TaskEnabled(s, t, a)
  {
    var w, id := s.waiters, s.tasks[t].id;
    match a
    case Register => w.(pending := w.pending + {id})
    case TakePending => TakeAll(w, Caller(t))
    case SendClosed(to) => Use(w, to, ConnectionClosed)
    case RemoveOwn => w.(pending := w.pending - {id})
    case _ => w
  }

  // The writer after the action. A failed, timed-out or cancelled write drops the lock.
  function WriterAfter(s: State, t: TaskIx, a: Action): Writer
    requires TaskEnabled(s, t, a)
  {
    var w, pc := s.writer, s.tasks[t].pc;
    match a
    case LockWriter => w.(lock := Some(Caller(t)))
    case WriteSome(n) => Put(w, pc.frame[pc.written..pc.written + n])
    case WriteDone => Release(w, pc.body, pc.frame, pc.written)
    case WriteFails(_) => if pc.Writing? then Release(w, pc.body, pc.frame, pc.written) else w
    case Cancel => if pc.Writing? then Release(w, pc.body, pc.frame, pc.written) else w
    case _ => w
  }

  function ApplyTask(s: State, t: TaskIx, a: Action): State
    requires TaskEnabled(s, t, a)
  {
    State(
      if a.AllocateId? then s.nextId + 1 else s.nextId,
      if a.AllocateId? then s.owner[s.nextId := t] else s.owner,
      s.closed || a.MarkClosed?,
      s.tasks[t := TaskAfter(s, t, a)],
      WaitersAfter(s, t, a),
      s.reader,
      s.frames,
      WriterAfter(s, t, a))
  }

  // --------------------------------------------------------------- the read loop

  datatype Event =
    | ResponseFrame(id: Id)
    | Deliver
    | ReverseRequestFrame(ack: seq<Byte>)
    | AckLock
    | AckSome(n: nat)
    | AckDone
    | AckFails
    | StreamEnds
    | ReaderMarks
    | ReaderTakes
    | ReaderSends(to: Id)
    | ReaderExits

  predicate ReaderEnabled(s: State, e: Event) {
    var r, w := s.reader, s.waiters;
    match e
    case ResponseFrame(_) => r.Reading?
    case Deliver => r.Delivering?
    case ReverseRequestFrame(_) => r.Reading?
    case AckLock => r.AckReady? && s.writer.lock.None?
    case AckSome(n) => r.AckWriting? && r.written + n <= |r.frame|
    case AckDone => r.AckWriting? && r.written == |r.frame|
    case AckFails => r.AckWriting? || r.AckReady?
    case StreamEnds => r.Reading?
    case ReaderMarks => r.Exiting?
    case ReaderTakes => r.ExitMarked?
    case ReaderSends(to) => r.ExitDraining? && to in w.hands && w.hands[to] == TheReader
    case ReaderExits => r.ExitDraining? && TheReader !in w.hands.Values
  }

  // A failed ack write is only logged: the loop reads on and `closed` is not stored.
  function ApplyReader(s: State, e: Event): State
    requires ReaderEnabled(s, e)
  {
    var r, w := s.reader, s.waiters;
    match e
    case ResponseFrame(id) =>
      if id in w.pending then
        s.(frames := s.frames + [id], waiters := TakeOne(w, id), reader := Delivering(id, |s.frames|))
      else s.(frames := s.frames + [id])
    case Deliver => s.(waiters := Use(w, r.id, Response(r.answer)), reader := Reading)
    case ReverseRequestFrame(ack) => s.(reader := AckReady(ack))
    case AckLock =>
      s.(reader := AckWriting(r.body, EncodeFrame(r.body), 0), writer := s.writer.(lock := Some(TheReader)))
    case AckSome(n) =>
      s.(reader := r.(written := r.written + n), writer := Put(s.writer, r.frame[r.written..r.written + n]))
    case AckDone => s.(reader := Reading, writer := Release(s.writer, r.body, r.frame, r.written))
    case AckFails =>
      s.(reader := Reading,
         writer := if r.AckWriting? then Release(s.writer, r.body, r.frame, r.written) else s.writer)
    case StreamEnds => s.(reader := Exiting)
    case ReaderMarks => s.(reader := ExitMarked, closed := true)
    case ReaderTakes => s.(reader := ExitDraining, waiters := TakeAll(w, TheReader))
    case ReaderSends(to) => s.(waiters := Use(w, to, ConnectionClosed))
    case ReaderExits => s.(reader := Exited)
  }

  // ------------------------------------------------------------------- whole runs

  datatype Step = Spawn(kind: Kind) | ByTask(t: TaskIx, action: Action) | ByReader(event: Event)

  predicate Enabled(s: State, step: Step) {
    match step
    case Spawn(_) => true
    case ByTask(t, a) => TaskEnabled(s, t, a)
    case ByReader(e) => ReaderEnabled(s, e)
  }

  function Apply(s: State, step: Step): State
    requires Enabled(s, step)
  {
    match step
    case Spawn(kind) => s.(tasks := s.tasks + [Task(kind, 0, Start)])
    case ByTask(t, a) => ApplyTask(s, t, a)
    case ByReader(e) => ApplyReader(s, e)
  }

  // A run from `s`: each step is enabled where it is taken.
  predicate IsRun(s: State, steps: seq<Step>)
    decreases |steps|
  {
    steps == [] || (Enabled(s, steps[0]) && IsRun(Apply(s, steps[0]), steps[1..]))
  }

  function After(s: State, steps: seq<Step>): State
    requires IsRun(s, steps)
    decreases |steps|
  {
    if steps == [] then s else After(Apply(s, steps[0]), steps[1..])
  }
}
