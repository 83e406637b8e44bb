/**
 What an abandoned write does to the connection: when it closes the transport, which
 calls may still write over the torn stream, and what the peer makes of that.
 */
module RpcTears {
  import opened Bytes
  import opened Decimal
  import opened Framing
  import opened FramingTheorems
  import opened RpcClient
  import opened RpcInvariant
  import opened RpcTheorems
  import opened TornFrames

  // ------------------------------------------------------ which tears close the transport

  // `closed` is stored, or a failed call is about to store it.
  ghost predicate Closing(s: State) {
    s.closed || exists t :: 0 <= t < |s.tasks| && s.tasks[t].pc.Failing?
  }

  // What `fail_transport` is for.
  ghost predicate TearsClose(s: State) {
    s.writer.torn ==> Closing(s)
  }

  // A write abandoned inside its frame by a failed acknowledgement or a dropped call.
  predicate SilentTear(s: State, step: Step)
    requires Enabled(s, step)
  {
    Tears(s, step) && !(step.ByTask? && step.action.WriteFails?)
  }

  lemma ClosingStays(s: State, step: Step)
    requires Enabled(s, step) && Closing(s)
    ensures Closing(Apply(s, step))
  {
    if !s.closed {
      var t :| 0 <= t < |s.tasks| && s.tasks[t].pc.Failing?;
      var s' := Apply(s, step);
      assert s'.closed || s'.tasks[t].pc.Failing?;
    }
  }

  // A silent tear closes nothing and makes no call do so.
  lemma SilentTearClosesNothing(s: State, step: Step)
    requires Inv(s) && Enabled(s, step) && SilentTear(s, step)
    ensures var s' := Apply(s, step);
            && s'.writer.torn && s'.closed == s.closed && |s'.tasks| == |s.tasks|
            && (forall t :: 0 <= t < |s.tasks| && s'.tasks[t].pc.Failing? ==> s.tasks[t].pc.Failing?)
  {
    HistoryIsReal(s, step);
  }

  // Every other tear does: the failed call goes on to store `closed`.
  lemma LoudTearCloses(s: State, step: Step)
    requires Enabled(s, step) && Tears(s, step) && !SilentTear(s, step)
    ensures Closing(Apply(s, step))
  {
    assert Apply(s, step).tasks[step.t].pc.Failing?;
  }

  lemma StepTearsClose(s: State, step: Step)
    requires Inv(s) && Enabled(s, step) && TearsClose(s)
    ensures TearsClose(Apply(s, step)) <==> !SilentTear(s, step) || Closing(s)
  {
    HistoryIsReal(s, step);
    if Closing(s) {
      ClosingStays(s, step);
    } else if SilentTear(s, step) {
      SilentTearClosesNothing(s, step);
    } else if Tears(s, step) {
      LoudTearCloses(s, step);
    }
  }

  ghost predicate AlwaysTearsClose(s: State, steps: seq<Step>)
    requires IsRun(s, steps)
    decreases |steps|
  {
    TearsClose(s) && (steps == [] || AlwaysTearsClose(Apply(s, steps[0]), steps[1..]))
  }

  // No silent tear happens while nobody is closing.
  ghost predicate NoSilentTear(s: State, steps: seq<Step>)
    requires IsRun(s, steps)
    decreases |steps|
  {
    steps == [] ||
    ((SilentTear(s, steps[0]) ==> Closing(s)) && NoSilentTear(Apply(s, steps[0]), steps[1..]))
  }

  // All along a run a torn stream means a closed or closing transport if and only if
  // no acknowledgement fails and no call is dropped inside its frame while nobody is
  // closing.
  lemma {:induction false} TearsCloseIff(s: State, steps: seq<Step>)
    requires Inv(s) && TearsClose(s) && IsRun(s, steps)
    ensures AlwaysTearsClose(s, steps) <==> NoSilentTear(s, steps)
    decreases |steps|
  {
    if steps != [] {
      var s1 := Apply(s, steps[0]);
      StepTearsClose(s, steps[0]);
      StepKeeps(s, steps[0]);
      if TearsClose(s1) {
        TearsCloseIff(s1, steps[1..]);
      }
    }
  }

  lemma {:induction false} TearsCloseAtEnd(s: State, steps: seq<Step>)
    requires IsRun(s, steps) && AlwaysTearsClose(s, steps)
    ensures TearsClose(After(s, steps))
    decreases |steps|
  {
    if steps != [] { TearsCloseAtEnd(Apply(s, steps[0]), steps[1..]); }
  }

  // From a new client.
  lemma EveryRunTearsCloseIff(steps: seq<Step>)
    requires IsRun(INITIAL, steps)
    ensures AlwaysTearsClose(INITIAL, steps) <==> NoSilentTear(INITIAL, steps)
    ensures NoSilentTear(INITIAL, steps) && After(INITIAL, steps).writer.torn ==> Closing(After(INITIAL, steps))
  {
    InitialOk();
    TearsCloseIff(INITIAL, steps);
    if AlwaysTearsClose(INITIAL, steps) { TearsCloseAtEnd(INITIAL, steps); }
  }

  // ------------------------------------------------------ who may write after the close

  // Past the check, and not yet done with its frame.
  predicate MayWrite(task: Task) {
    task.pc.Checked? || task.pc.Allocated? || task.pc.Registered? || task.pc.Ready? || task.pc.Writing?
  }

  // On some run the call writes its frame to the end.
  ghost predicate CanFinish(s: State, t: TaskIx) {
    exists steps :: IsRun(s, steps) && TaskEnabled(After(s, steps), t, WriteDone)
  }

  // After the close no call joins those that may write.
  lemma {:induction false} WritersOnlyLeave(s: State, steps: seq<Step>, t: TaskIx)
    requires IsRun(s, steps) && s.closed
    requires t < |After(s, steps).tasks| && MayWrite(After(s, steps).tasks[t])
    ensures t < |s.tasks| && MayWrite(s.tasks[t])
    decreases |steps|
  {
    if steps != [] {
      WritersOnlyLeave(Apply(s, steps[0]), steps[1..], t);
    }
  }

  ghost predicate Leads(start: State, s: State) {
    exists steps :: IsRun(start, steps) && After(start, steps) == s
  }

  // One more step of a run from `start`.
  lemma Next(start: State, s: State, step: Step) returns (s': State)
    requires Leads(start, s) && Inv(s) && Enabled(s, step)
    ensures s' == Apply(s, step) && Leads(start, s') && Inv(s')
  {
    var steps :| IsRun(start, steps) && After(start, steps) == s;
    RunThen(start, steps, step);
    StepKeeps(s, step);
    s' := Apply(s, step);
  }

  // Whoever holds the lock can let go of it.
  lemma FreeLock(start: State, s: State, t: TaskIx) returns (s': State)
    requires Leads(start, s) && Inv(s) && t < |s.tasks| && s.tasks[t].pc.Ready?
    ensures Leads(start, s') && Inv(s') && s'.writer.lock.None?
    ensures |s'.tasks| == |s.tasks| && s'.tasks[t] == s.tasks[t]
  {
    match s.writer.lock {
      case None => s' := s;
      case Some(TheReader) => s' := Next(start, s, ByReader(AckFails));
      case Some(Caller(u)) => s' := Next(start, s, ByTask(u, WriteFails(WriteFailed)));
    }
  }

  // A call past the check comes to want the writer.
  lemma GetReady(start: State, s: State, t: TaskIx) returns (s': State)
    requires Leads(start, s) && Inv(s) && t < |s.tasks|
    requires MayWrite(s.tasks[t]) && !s.tasks[t].pc.Writing?
    ensures Leads(start, s') && Inv(s') && t < |s'.tasks| && s'.tasks[t].pc.Ready?
  {
    s' := s;
    if s'.tasks[t].pc.Checked? { s' := Next(start, s', ByTask(t, AllocateId)); }
    if s'.tasks[t].pc.Allocated? && s'.tasks[t].kind.Request? { s' := Next(start, s', ByTask(t, Register)); }
    if !s'.tasks[t].pc.Ready? {
      assert TaskOk(s'.tasks[t]);
      s' := Next(start, s', ByTask(t, Serialize([])));
    }
  }

  lemma FinishWriting(start: State, s: State, t: TaskIx)
    requires Leads(start, s) && Inv(s) && t < |s.tasks| && s.tasks[t].pc.Writing?
    ensures CanFinish(start, t)
  {
    var pc := s.tasks[t].pc;
    assert TaskWrites(EncodeFrame, s.tasks[t]);
    var s' := Next(start, s, ByTask(t, WriteSome(|pc.frame| - pc.written)));
    assert TaskEnabled(s', t, WriteDone);
  }

  // Once `closed` is stored, a call may still write a whole frame if and only if it is
  // past the check and not yet done with its frame; the wire may be torn by then.
  lemma WritesAfterCloseIff(s: State, t: TaskIx)
    requires Inv(s) && s.closed
    ensures CanFinish(s, t) <==> t < |s.tasks| && MayWrite(s.tasks[t])
  {
    if CanFinish(s, t) {
      var steps :| IsRun(s, steps) && TaskEnabled(After(s, steps), t, WriteDone);
      WritersOnlyLeave(s, steps, t);
    }
    if t < |s.tasks| && MayWrite(s.tasks[t]) {
      assert IsRun(s, []) && After(s, []) == s;
      if s.tasks[t].pc.Writing? {
        FinishWriting(s, s, t);
      } else {
        var s1 := GetReady(s, s, t);
        var s2 := FreeLock(s, s1, t);
        var s3 := Next(s, s2, ByTask(t, LockWriter));
        FinishWriting(s, s3, t);
      }
    }
  }

  // ------------------------------------------------------ what the peer then reads

  // The wire of these runs: a frame cut at `k`, then a whole one.
  ghost predicate WrittenOver(s: State, torn: seq<Byte>, k: nat, body: seq<Byte>)
    requires k <= |EncodeFrame(torn)|
  {
    s.writer.torn && s.writer.whole == [body] && s.writer.wire == TornStream(torn, k, body, [])
  }

  lemma OverTorn(w: Writer, torn: seq<Byte>, k: nat, body: seq<Byte>, w': Writer)
    requires k <= |EncodeFrame(torn)| && w.wire == EncodeFrame(torn)[..k] && w.torn && w.whole == []
    requires w' == w.(wire := w.wire + EncodeFrame(body), whole := w.whole + [body])
    ensures w'.wire == TornStream(torn, k, body, []) && w'.torn && w'.whole == [body]
  {
    assert EncodeFrame(body) + [] == EncodeFrame(body);
  }

  // A failed acknowledgement leaves the transport open, wherever it was cut, and a
  // later call writes its frame over the torn stream.
  lemma AckTearStaysOpen(torn: seq<Byte>, k: nat, body: seq<Byte>) returns (s: State)
    requires 0 < k < |EncodeFrame(torn)|
    ensures Reachable(s) && !Closing(s) && WrittenOver(s, torn, k, body)
    ensures |s.tasks| == 1 && s.tasks[0].pc == Done(NotificationSent)
  {
    var frame := EncodeFrame(torn);
    var s0 := Started();
    var s1 := Take(s0, ByReader(ReverseRequestFrame(torn)));
    var s2 := Take(s1, ByReader(AckLock));
    var s3 := Take(s2, ByReader(AckSome(k)));
    var s4 := Take(s3, ByReader(AckFails));
    assert s4.writer.wire == frame[..k];
    var s5 := Begin(s4, 0, Notification);
    s := WriteWhole(s5, 0, body);
    OverTorn(s5.writer, torn, k, body, s.writer);
  }

  // So does a caller dropped inside its frame, with no frame from the peer at all.
  lemma DroppedCallStaysOpen(torn: seq<Byte>, k: nat, body: seq<Byte>) returns (s: State)
    requires 0 < k < |EncodeFrame(torn)|
    ensures Reachable(s) && !Closing(s) && WrittenOver(s, torn, k, body) && s.frames == []
    ensures |s.tasks| == 2 && s.tasks[0].pc == Done(Cancelled) && s.tasks[1].pc == Done(NotificationSent)
  {
    var s0 := Started();
    var s1 := Begin(s0, 0, Notification);
    var s2 := PartWritten(s1, 0, torn, k);
    var s3 := Take(s2, ByTask(0, Cancel));
    var s4 := Begin(s3, 1, Notification);
    s := WriteWhole(s4, 1, body);
    OverTorn(s4.writer, torn, k, body, s.writer);
  }

  // A call up to byte `k` of its frame.
  lemma PartWritten(s: State, t: TaskIx, body: seq<Byte>, k: nat) returns (s': State)
    requires Reachable(s) && t < |s.tasks| && s.tasks[t] == Task(Notification, s.tasks[t].id, Allocated)
    requires s.writer == INITIAL.writer && k <= |EncodeFrame(body)|
    ensures Reachable(s')
    ensures s' == s.(tasks := s.tasks[t := s.tasks[t].(pc := Writing(body, EncodeFrame(body), k))],
                     writer := Writer(Some(Caller(t)), EncodeFrame(body)[..k], [], false))
  {
    var frame := EncodeFrame(body);
    var s1 := Take(s, ByTask(t, Serialize(body)));
    var s2 := Take(s1, ByTask(t, LockWriter));
    s' := Take(s2, ByTask(t, WriteSome(k)));
    assert frame[0..0 + k] == frame[..k];
  }

  // Call 0 tears the stream; call 1 is past the check.
  lemma TornBehindACheck(torn: seq<Byte>, k: nat) returns (s: State)
    requires 0 < k < |EncodeFrame(torn)|
    ensures Reachable(s) && s.writer == Writer(None, EncodeFrame(torn)[..k], [], true)
    ensures s.tasks == [Task(Notification, 1, Failing(WriteFailed)), Task(Notification, 2, Allocated)]
    ensures s.waiters == INITIAL.waiters
  {
    var s0 := Started();
    var s1 := Begin(s0, 0, Notification);
    var s2 := Begin(s1, 1, Notification);
    var s3 := PartWritten(s2, 0, torn, k);
    s := Take(s3, ByTask(0, WriteFails(WriteFailed)));
  }

  // A failed call goes on to close; the others stay where they are.
  lemma CloseAfterFailure(s: State) returns (s': State)
    requires Reachable(s) && |s.tasks| == 2 && s.tasks[0].pc == Failing(WriteFailed) && s.waiters == INITIAL.waiters
    ensures Reachable(s') && s'.closed && s'.writer == s.writer
    ensures s'.tasks == [s.tasks[0].(pc := Done(WriteFailed)), s.tasks[1]]
  {
    var s1 := Take(s, ByTask(0, MarkClosed));
    var s2 := Take(s1, ByTask(0, TakePending));
    s' := Take(s2, ByTask(0, FinishDrain));
  }

  // A failed call does close, but not in time for a call already past the check.
  lemma RacingCallWritesOver(torn: seq<Byte>, k: nat, body: seq<Byte>) returns (s: State)
    requires 0 < k < |EncodeFrame(torn)|
    ensures Reachable(s) && s.closed && WrittenOver(s, torn, k, body)
    ensures |s.tasks| == 2 && s.tasks[0].pc == Done(WriteFailed) && s.tasks[1].pc == Done(NotificationSent)
  {
    var s0 := TornBehindACheck(torn, k);
    var s1 := CloseAfterFailure(s0);
    s := WriteWhole(s1, 1, body);
    OverTorn(s1.writer, torn, k, body, s.writer);
  }

  // Either way the peer decodes the second frame if and only if the first was cut at
  // its length line as `Resyncs` says; else it reads an error or a wrong body.
  lemma PeerReads(lossy: Lossy, end: StreamEnd, s: State, torn: seq<Byte>, k: nat, body: seq<Byte>)
    requires ExactOnAscii(lossy) && |torn| <= USIZE_MAX && |body| <= USIZE_MAX
    requires 0 < k < |EncodeFrame(torn)| && WrittenOver(s, torn, k, body)
    ensures Decode(lossy, s.writer.wire, end) == AfterTear(torn, k, body, [], end)
    ensures Decode(lossy, s.writer.wire, end) == Frame(body, []) <==> Resyncs(torn, k, body)
  {
    TornDecoded(lossy, torn, k, body, [], end);
    ResyncIff(lossy, torn, k, body, [], end);
  }
}
