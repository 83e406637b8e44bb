/** Which mode a published file has: when an old mode survives, and what a new file gets. */
module AtomicModes {
  import opened Bytes
  import opened AtomicWrite
  import opened AtomicTheorems

  // ------------------------------------------------------------ when an old mode survives

  // Followed back from the first `n` commits, the mode at `p` is that of the original:
  // a commit that restored a mode leaves the one there at its stat, any other the one
  // its temp file happened to have.
  ghost predicate Keeps(commits: seq<Commit>, calls: seq<Call>, origin: map<Path, File>, p: Path, n: nat)
    requires n <= |commits| && p in origin
    decreases n
  {
    n == 0 ||
    if commits[n - 1].target != p then Keeps(commits, calls, origin, p, n - 1)
    else
      && commits[n - 1].call < |calls|
      && var call := calls[commits[n - 1].call];
      if Restores(call) then call.statAt.value < n && Keeps(commits, calls, origin, p, call.statAt.value)
      else FinalMode(call) == origin[p].mode
  }

  // Its stat succeeded and found a file, and so did the change of mode.
  predicate Restores(call: Call) {
    call.restored && call.statAt.Some?
  }

  lemma {:induction false} KeepsExact(commits: seq<Commit>, calls: seq<Call>, origin: map<Path, File>, p: Path, n: nat)
    requires CommitsOk(commits, calls) && StatsOk(commits, origin, calls) && n <= |commits| && p in origin
    ensures var f := Expected(commits[..n], origin, p);
            f.Some? && (f.value.mode == origin[p].mode <==> Keeps(commits, calls, origin, p, n))
    decreases n
  {
    if n > 0 {
      assert commits[..n][..n - 1] == commits[..n - 1];
      if commits[n - 1].target != p {
        KeepsExact(commits, calls, origin, p, n - 1);
      } else {
        var call := calls[commits[n - 1].call];
        assert CommitOk(commits[n - 1], n - 1, calls) && StatOk(commits, origin, call);
        if Restores(call) {
          KeepsExact(commits, calls, origin, p, call.statAt.value);
        }
      }
    }
  }

  // A file that exists at the start is always there, and has the mode it had if and
  // only if the commits to it lead back to it, or one that restored no mode left the
  // same mode by chance.
  lemma ExistingModeIff(start: State, steps: seq<Step>, p: Path)
    requires Initial(start) && IsRun(start, steps) && p in start.names && !TempShaped(p.name)
    ensures start.names[p] < |start.files| && p in start.origin
    ensures var s := After(start, steps);
            && Read(s, p).Some?
            && (Read(s, p).value.mode == start.files[start.names[p]].mode
                <==> Keeps(s.commits, s.calls, start.origin, p, |s.commits|))
  {
    InitialOk(start);
    RunKeeps(start, steps);
    OriginStays(start, steps);
    ReadsAreComplete(start, steps, p);
    var s := After(start, steps);
    KeepsExact(s.commits, s.calls, s.origin, p, |s.commits|);
    assert s.commits[..|s.commits|] == s.commits;
  }

  lemma {:induction false} RestoresKeep(commits: seq<Commit>, calls: seq<Call>, origin: map<Path, File>, p: Path,
                                        n: nat)
    requires CommitsOk(commits, calls) && n <= |commits| && p in origin
    requires forall k :: 0 <= k < n && commits[k].target == p ==>
               commits[k].call < |calls| && Restores(calls[commits[k].call])
    ensures Keeps(commits, calls, origin, p, n)
    decreases n
  {
    if n > 0 {
      assert CommitOk(commits[n - 1], n - 1, calls);
      RestoresKeep(commits, calls, origin, p, n - 1);
      if commits[n - 1].target == p {
        RestoresKeep(commits, calls, origin, p, calls[commits[n - 1].call].statAt.value);
      }
    }
  }

  // It keeps its mode when every commit to it restored one.
  lemma ExistingModeKept(start: State, steps: seq<Step>, p: Path)
    requires Initial(start) && IsRun(start, steps) && p in start.names && !TempShaped(p.name)
    requires var s := After(start, steps);
             forall k :: 0 <= k < |s.commits| && s.commits[k].target == p ==>
               s.commits[k].call < |s.calls| && Restores(s.calls[s.commits[k].call])
    ensures start.names[p] < |start.files| && Read(After(start, steps), p).Some?
    ensures Read(After(start, steps), p).value.mode == start.files[start.names[p]].mode
  {
    InitialOk(start);
    RunKeeps(start, steps);
    OriginStays(start, steps);
    ExistingModeIff(start, steps, p);
    var s := After(start, steps);
    RestoresKeep(s.commits, s.calls, s.origin, p, |s.commits|);
  }

  // ------------------------------------------------------------ runs that lose a mode

  lemma ReachesOk(start: State, s: State)
    requires Initial(start) && Reaches(start, s)
    ensures Inv(s)
  {
    var steps :| IsRun(start, steps) && After(start, steps) == s;
    InitialOk(start);
    RunKeeps(start, steps);
  }

  // The call about to create its temp file.
  predicate Ready(call: Call, pid: nat, target: Path, ownerOnly: bool, nanos: nat) {
    && call.pc.Named? && call.pid == pid && call.target == target && call.content == []
    && call.ownerOnly == ownerOnly && call.nanos == nanos
  }

  // Up to the stat.
  lemma StatOne(start: State, s: State, pid: nat, target: Path, ownerOnly: bool, statOk: bool) returns (s': State)
    requires Initial(start) && Reaches(start, s) && !TempShaped(target.name)
    ensures Reaches(start, s') && |s.calls| !in s.dead
    ensures var call := NewCall(pid, target, [], ownerOnly);
            var prev := if statOk then ModeIn(Read(s, target)) else None;
            var statAt := if statOk then Some(|s.commits|) else None;
            s' == s.(calls := s.calls + [call.(pc := Statted, prev := prev, statAt := statAt)])
  {
    var c := |s.calls|;
    assert c !in s.dead by { ReachesOk(start, s); }
    var s1 := Take(start, s, Begin(pid, target, [], ownerOnly));
    s' := Take(start, s1, By(c, Stat(statOk)));
  }

  lemma NameOne(start: State, s: State, pid: nat, target: Path, ownerOnly: bool, statOk: bool, nanos: nat)
    returns (s': State)
    requires Initial(start) && Reaches(start, s) && !TempShaped(target.name)
    ensures Reaches(start, s') && CallEnabled(s', |s.calls|, Create(true))
    ensures s' == s.(calls := s.calls + [s'.calls[|s.calls|]], nonce := s'.nonce)
    ensures var call := s'.calls[|s.calls|];
            && Ready(call, pid, target, ownerOnly, nanos)
            && call.temp == TempPath(target, pid, nanos, Nonce(s, pid))
            && call.prev == (if statOk then ModeIn(Read(s, target)) else None)
            && call.statAt == (if statOk then Some(|s.commits|) else None)
  {
    var s1 := StatOne(start, s, pid, target, ownerOnly, statOk);
    s' := Take(start, s1, By(|s.calls|, PickName(nanos)));
  }

  // The call has its temp file open, nothing written yet.
  lemma OpenOne(start: State, s: State, c: nat) returns (s': State)
    requires Initial(start) && Reaches(start, s) && CallEnabled(s, c, Create(true))
    ensures Reaches(start, s') && CallEnabled(s', c, Harden(true))
    ensures s' == s.(names := s'.names, files := s'.files, calls := s'.calls) && |s'.calls| == |s.calls|
    ensures forall d :: 0 <= d < |s.calls| && d != c ==> s'.calls[d] == s.calls[d]
    ensures forall p :: p != s.calls[c].temp ==> (p in s'.names <==> p in s.names)
    ensures var call, call' := s.calls[c], s'.calls[c];
            call' == call.(pc := Created, inode := call'.inode, base := call'.base, hardened := false,
                           restored := false)
    ensures s'.calls[c].base == match Read(s, s.calls[c].temp) case Some(f) => f.mode case None => s.umask
  {
    assert s.calls[c].temp in s.names ==> s.names[s.calls[c].temp] < |s.files| by { ReachesOk(start, s); }
    s' := Take(start, s, By(c, Create(true)));
  }

  // The mode an undisturbed call leaves.
  function Left(call: Call): nat {
    if call.prev.Some? then call.prev.value else if call.ownerOnly then OWNER_ONLY else call.base
  }

  // The temp file is complete and, for a private new file, owner-only.
  lemma HardenOne(start: State, s: State, c: nat) returns (s': State)
    requires Initial(start) && Reaches(start, s) && CallEnabled(s, c, Harden(true)) && s.calls[c].content == []
    ensures Reaches(start, s') && CallEnabled(s', c, RestoreMode(true))
    ensures s' == s.(files := s'.files, calls := s.calls[c := s'.calls[c]]) && s.calls[c].temp in s.names
    ensures var call, hardened := s.calls[c], s.calls[c].ownerOnly && s.calls[c].prev.None?;
            && s'.calls[c] == call.(pc := Synced, hardened := hardened)
            && Read(s', call.temp) == Some(File([], if hardened then OWNER_ONLY else call.base))
  {
    assert OpenOk(s.names, s.files, s.calls[c]) by { ReachesOk(start, s); }
    var s1 := Take(start, s, By(c, Harden(true)));
    s' := Take(start, s1, By(c, Sync));
  }

  // It has the mode to keep as well.
  lemma ModeOne(start: State, s: State, c: nat) returns (s': State)
    requires Initial(start) && Reaches(start, s) && CallEnabled(s, c, Harden(true)) && s.calls[c].content == []
    ensures Reaches(start, s') && CallEnabled(s', c, Rename(true)) && s'.commits == s.commits
    ensures |s'.calls| == |s.calls|
    ensures var call, call' := s.calls[c], s'.calls[c];
            && call' == call.(pc := Moded, hardened := call'.hardened, restored := call.prev.Some?)
            && (call'.hardened <==> call.ownerOnly && call.prev.None?)
    ensures Read(s', s.calls[c].temp) == Some(File([], Left(s.calls[c])))
  {
    var s1 := HardenOne(start, s, c);
    s' := Take(start, s1, By(c, RestoreMode(true)));
  }

  // From the open temp file to the rename, nothing failing.
  lemma FinishOne(start: State, s: State, c: nat) returns (s': State)
    requires Initial(start) && Reaches(start, s) && CallEnabled(s, c, Harden(true)) && s.calls[c].content == []
    ensures Reaches(start, s') && |s'.calls| == |s.calls|
    ensures s'.commits == s.commits + [Commit(c, s.calls[c].target, File([], Left(s.calls[c])))]
    ensures Read(s', s.calls[c].target) == Some(File([], Left(s.calls[c])))
    ensures var call, call' := s.calls[c], s'.calls[c];
            && call' == call.(pc := DoneOk, hardened := call'.hardened, restored := call.prev.Some?)
            && (call'.hardened <==> call.ownerOnly && call.prev.None?)
  {
    var s1 := ModeOne(start, s, c);
    s' := Take(start, s1, By(c, Rename(true)));
  }

  lemma Nowhere(start: State)
    requires Initial(start)
    ensures Reaches(start, start)
  {
    assert IsRun(start, []) && After(start, []) == start;
  }

  // A private write whose stat fails returns Ok and loses the mode of the file.
  lemma FailedStatLosesMode(start: State, p: Path) returns (s: State)
    requires Initial(start) && p in start.names && !TempShaped(p.name)
    ensures Reaches(start, s) && Read(s, p) == Some(File([], OWNER_ONLY))
    ensures |s.commits| == |s.calls| == 1 && s.commits[0].call == 0
    ensures s.calls[0].pc.DoneOk? && s.calls[0].statAt.None?
  {
    Nowhere(start);
    var s1 := NameOne(start, start, 0, p, true, false, 0);
    var s2 := OpenOne(start, s1, 0);
    s := FinishOne(start, s2, 0);
  }

  // A successful stat does not bring it back: a later write restores what it finds.
  lemma LostModeStays(start: State, p: Path) returns (s: State)
    requires Initial(start) && p in start.names && !TempShaped(p.name)
    ensures Reaches(start, s) && Read(s, p) == Some(File([], OWNER_ONLY))
    ensures |s.commits| == |s.calls| == 2 && s.commits[1].target == p && s.commits[1].call == 1
    ensures Restores(s.calls[1])
  {
    var s1 := FailedStatLosesMode(start, p);
    var s2 := NameOne(start, s1, 0, p, false, true, 0);
    var s3 := OpenOne(start, s2, 1);
    s := FinishOne(start, s3, 1);
  }

  // ------------------------------------------------------------ what a new file gets

  // The call may have made its temp file.
  predicate Made(call: Call) {
    HasTemp(call) && !call.pc.Named?
  }

  ghost predicate MadeBy(calls: seq<Call>, p: Path) {
    exists c :: 0 <= c < |calls| && Made(calls[c]) && calls[c].temp == p
  }

  // Every file under a temp name was there at the start or was made by a call.
  ghost predicate Traced(shape: Shape, names: map<Path, nat>, origin: map<Path, File>, calls: seq<Call>) {
    forall p :: shape(p) && p in names ==> p in origin || MadeBy(calls, p)
  }

  lemma MadeStays(calls: seq<Call>, c: nat, call: Call, p: Path)
    requires c < |calls| && MadeBy(calls, p)
    requires Made(calls[c]) ==> Made(call) && call.temp == calls[c].temp
    ensures MadeBy(calls[c := call], p)
  {
    var d :| 0 <= d < |calls| && Made(calls[d]) && calls[d].temp == p;
    var calls' := calls[c := call];
    assert Made(calls'[d]) && calls'[d].temp == p;
  }

  // Only a create brings a temp name.
  predicate Progresses(s: State, c: nat, a: Action)
    requires CallEnabled(s, c, a)
  {
    var call, s' := s.calls[c], ApplyCall(s, c, a);
    && s'.calls == s.calls[c := s'.calls[c]] && s'.origin == s.origin && s'.umask == s.umask
    && (Made(call) ==> Made(s'.calls[c]) && s'.calls[c].temp == call.temp)
    && (a.Create? ==> Made(s'.calls[c]) && s'.calls[c].temp == call.temp)
  }

  lemma CreateProgresses(s: State, c: nat, ok: bool)
    requires CallEnabled(s, c, Create(ok))
    ensures Progresses(s, c, Create(ok))
    ensures forall p :: p in ApplyCall(s, c, Create(ok)).names ==> p in s.names || p == s.calls[c].temp
  {
  }

  lemma WriterProgresses(s: State, c: nat, a: Action)
    requires CallEnabled(s, c, a) && TouchesFiles(a) && !a.Create?
    ensures Progresses(s, c, a) && ApplyCall(s, c, a).names == s.names
  {
  }

  lemma FileStepProgresses(s: State, c: nat, a: Action)
    requires CallEnabled(s, c, a) && TouchesFiles(a)
    ensures Progresses(s, c, a)
    ensures forall p :: p in ApplyCall(s, c, a).names ==> p in s.names || (a.Create? && p == s.calls[c].temp)
  {
    if a.Create? { CreateProgresses(s, c, a.ok); } else { WriterProgresses(s, c, a); }
  }

  lemma OtherStepProgresses(s: State, c: nat, a: Action)
    requires CallEnabled(s, c, a) && !TouchesFiles(a)
    ensures Progresses(s, c, a)
    ensures forall p :: p in ApplyCall(s, c, a).names ==> p in s.names || p == s.calls[c].target
  {
  }

  lemma CallTraced(shape: Shape, s: State, c: nat, a: Action, s': State)
    requires Traced(shape, s.names, s.origin, s.calls) && CallEnabled(s, c, a) && !shape(s.calls[c].target)
    requires s' == ApplyCall(s, c, a)
    ensures Traced(shape, s'.names, s'.origin, s'.calls)
  {
    if TouchesFiles(a) { FileStepProgresses(s, c, a); } else { OtherStepProgresses(s, c, a); }
    forall p | shape(p) && p in s'.names && p !in s.origin ensures MadeBy(s'.calls, p) {
      if p in s.names {
        MadeStays(s.calls, c, s'.calls[c], p);
      } else {
        assert Made(s'.calls[c]) && s'.calls[c].temp == p;
      }
    }
  }

  lemma StepTraced(s: State, step: Step)
    requires Inv(s) && Enabled(s, step) && Traced(TempPaths(), s.names, s.origin, s.calls)
    ensures var s' := Apply(s, step); Traced(TempPaths(), s'.names, s'.origin, s'.calls)
  {
    match step {
      case Begin(pid, target, content, ownerOnly) =>
        var calls' := Apply(s, step).calls;
        forall p | MadeBy(s.calls, p) ensures MadeBy(calls', p) {
          var d :| 0 <= d < |s.calls| && Made(s.calls[d]) && s.calls[d].temp == p;
          assert calls'[d] == s.calls[d];
        }
      case By(c, a) =>
        assert PathsOk(TempPaths(), s.calls[c]);
        CallTraced(TempPaths(), s, c, a, ApplyCall(s, c, a));
      case Crash(_) =>
    }
  }

  lemma {:induction false} RunTraced(s: State, steps: seq<Step>)
    requires Inv(s) && IsRun(s, steps) && Traced(TempPaths(), s.names, s.origin, s.calls)
    ensures var s' := After(s, steps); Inv(s') && Traced(TempPaths(), s'.names, s'.origin, s'.calls)
    decreases |steps|
  {
    if steps != [] {
      StepKeeps(s, steps[0]);
      StepTraced(s, steps[0]);
      RunTraced(Apply(s, steps[0]), steps[1..]);
    }
  }

  // A call of an ended process made what is at `p`.
  ghost predicate LeftBehind(s: State, p: Path) {
    exists d :: d in s.dead && d < |s.calls| && Made(s.calls[d]) && s.calls[d].temp == p
  }

  // On every run, the file about to be opened gets the umask's mode if and only if
  // there is no leftover with another mode; a leftover was there before the first
  // call, or is of a call of an ended process.
  lemma InheritsIff(start: State, steps: seq<Step>, c: nat)
    requires Initial(start) && IsRun(start, steps) && CallEnabled(After(start, steps), c, Create(true))
    ensures var s := After(start, steps);
            var leftover := Read(s, s.calls[c].temp);
            && (ApplyCall(s, c, Create(true)).calls[c].base == s.umask
                <==> leftover.None? || leftover.value.mode == s.umask)
            && (leftover.Some? ==> s.calls[c].temp in start.names || LeftBehind(s, s.calls[c].temp))
  {
    InitialOk(start);
    RunTraced(start, steps);
    OriginStays(start, steps);
    var s := After(start, steps);
    if s.calls[c].temp in s.names && s.calls[c].temp !in start.names {
      FoundBehind(s, c);
    }
  }

  lemma FoundBehind(s: State, c: nat)
    requires Inv(s) && Traced(TempPaths(), s.names, s.origin, s.calls) && CallEnabled(s, c, Create(true))
    requires s.calls[c].temp in s.names && s.calls[c].temp !in s.origin
    ensures LeftBehind(s, s.calls[c].temp)
  {
    var temp := s.calls[c].temp;
    assert PathsOk(TempPaths(), s.calls[c]);
    var d :| 0 <= d < |s.calls| && Made(s.calls[d]) && s.calls[d].temp == temp;
    assert d != c && d in s.dead;
  }

  // The temp name of an ended process is picked again, by any call to the same target
  // at the same time.
  lemma NameIsTakenAgain(start: State, p: Path, pid: nat, nanos: nat) returns (s: State, c: nat)
    requires Initial(start) && !TempShaped(p.name)
    ensures Reaches(start, s) && CallEnabled(s, c, PickName(nanos)) && s.calls[c].target == p
    ensures Owned(s.calls, NextTemp(s, c, nanos))
  {
    Nowhere(start);
    var s1 := NameOne(start, start, pid, p, true, true, nanos);
    var s2 := Take(start, s1, Crash(pid));
    c := 1;
    var s3 := Take(start, s2, Begin(pid, p, [], false));
    s := Take(start, s3, By(c, Stat(true)));
    assert HasTemp(s.calls[0]) && s.calls[0].temp == NextTemp(s, c, nanos);
  }

  // A private call makes its temp file owner-only, then its process ends.
  lemma HardenThenEnd(start: State, s: State, c: nat) returns (s': State)
    requires Initial(start) && Reaches(start, s) && CallEnabled(s, c, Harden(true))
    requires s.calls[c].ownerOnly && s.calls[c].prev.None?
    ensures Reaches(start, s') && s'.commits == s.commits && s'.names == s.names && |s'.calls| == |s.calls|
    ensures Nonce(s', s.calls[c].pid) == 0
    ensures Read(s', s.calls[c].temp).Some? && Read(s', s.calls[c].temp).value.mode == OWNER_ONLY
  {
    assert OpenOk(s.names, s.files, s.calls[c]) by { ReachesOk(start, s); }
    var s1 := Take(start, s, By(c, Harden(true)));
    s' := Take(start, s1, Crash(s.calls[c].pid));
  }

  // A file made by a call that is not private ends up owner-only: it inherits the mode
  // of what a private call of an ended process left behind.
  lemma ModeIsInherited(start: State, p: Path, pid: nat, nanos: nat) returns (s: State)
    requires Initial(start) && p !in start.names && !TempShaped(p.name)
    ensures Reaches(start, s) && Read(s, p) == Some(File([], OWNER_ONLY))
    ensures |s.commits| == 1 && |s.calls| == 2 && s.commits[0].call == 1
    ensures !s.calls[1].ownerOnly && s.calls[1].prev.None? && !s.calls[1].hardened
  {
    Nowhere(start);
    var s1 := NameOne(start, start, pid, p, true, true, nanos);
    TempNameShaped(p.name, pid, nanos, 0);
    assert s1.calls[0].temp != p;
    var s2 := OpenOne(start, s1, 0);
    var s3 := HardenThenEnd(start, s2, 0);
    assert p !in s3.names;
    s := NextInherits(start, s3, p, pid, nanos);
  }

  lemma NextInherits(start: State, s: State, p: Path, pid: nat, nanos: nat) returns (s': State)
    requires Initial(start) && Reaches(start, s) && !TempShaped(p.name) && p !in s.names
    requires |s.calls| == 1 && s.commits == []
    requires var f := Read(s, TempPath(p, pid, nanos, Nonce(s, pid))); f.Some? && f.value.mode == OWNER_ONLY
    ensures Reaches(start, s') && Read(s', p) == Some(File([], OWNER_ONLY))
    ensures |s'.commits| == 1 && |s'.calls| == 2 && s'.commits[0].call == 1
    ensures !s'.calls[1].ownerOnly && s'.calls[1].prev.None? && !s'.calls[1].hardened
  {
    var s1 := NameOne(start, s, pid, p, false, true, nanos);
    var s2 := OpenOne(start, s1, 1);
    s' := FinishOne(start, s2, 1);
  }

  // ------------------------------------------------------------ with a clock that moves on

  // The clock reads a time that no earlier process of that number picked a name at.
  predicate NewTime(s: State, pid: nat, nanos: nat) {
    forall d :: d in s.dead && d < |s.calls| && s.calls[d].pid == pid && HasTemp(s.calls[d]) ==>
      s.calls[d].nanos != nanos
  }

  ghost predicate ClockMovesOn(s: State, steps: seq<Step>)
    requires IsRun(s, steps)
    decreases |steps|
  {
    steps == [] ||
    (PicksAtNewTime(s, steps[0]) && ClockMovesOn(Apply(s, steps[0]), steps[1..]))
  }

  predicate PicksAtNewTime(s: State, step: Step) {
    step.By? && step.action.PickName? && step.c < |s.calls| ==> NewTime(s, s.calls[step.c].pid, step.action.nanos)
  }

  // Within the life of a process the counter makes the name new, across lives the clock.
  lemma FreshTemp(s: State, c: nat, nanos: nat)
    requires Inv(s) && CallEnabled(s, c, PickName(nanos)) && NewTime(s, s.calls[c].pid, nanos)
    ensures !Owned(s.calls, NextTemp(s, c, nanos))
  {
    TakenIff(s, c, nanos);
  }

  ghost predicate AllApart(calls: seq<Call>) {
    forall c, d :: 0 <= c < d < |calls| && HasTemp(calls[c]) && HasTemp(calls[d]) ==> calls[c].temp != calls[d].temp
  }

  // The call opened its temp file.
  predicate Opened(call: Call) {
    Open(call) || call.pc.DoneOk?
  }

  ghost predicate BasesClean(umask: nat, calls: seq<Call>) {
    forall c :: 0 <= c < |calls| && Opened(calls[c]) ==> calls[c].base == umask
  }

  ghost predicate Clean(s: State) {
    && (forall p :: p in s.origin ==> !TempPaths()(p))
    && Traced(TempPaths(), s.names, s.origin, s.calls)
    && AllApart(s.calls) && BasesClean(s.umask, s.calls)
  }

  lemma CreateClean(s: State, c: nat)
    requires Inv(s) && Clean(s) && CallEnabled(s, c, Create(true))
    ensures s.calls[c].temp !in s.names
  {
    var temp := s.calls[c].temp;
    assert PathsOk(TempPaths(), s.calls[c]);
    forall d | 0 <= d < |s.calls| && Made(s.calls[d]) ensures s.calls[d].temp != temp {
      assert d < c || c < d;
    }
    assert !MadeBy(s.calls, temp);
  }

  // A call that keeps its temp name and the mode it was opened with.
  lemma CleanKept(umask: nat, calls: seq<Call>, c: nat, call: Call)
    requires AllApart(calls) && BasesClean(umask, calls) && c < |calls| && SameTemp(calls[c], call)
    requires Opened(call) ==> call.base == umask
    ensures AllApart(calls[c := call]) && BasesClean(umask, calls[c := call])
  {
  }

  // A name that no call has.
  lemma CleanName(umask: nat, calls: seq<Call>, c: nat, call: Call)
    requires AllApart(calls) && BasesClean(umask, calls) && c < |calls| && call.pc.Named? && !Owned(calls, call.temp)
    ensures AllApart(calls[c := call]) && BasesClean(umask, calls[c := call])
  {
    forall d | 0 <= d < |calls| && HasTemp(calls[d]) ensures calls[d].temp != call.temp {}
  }

  lemma PickClean(s: State, c: nat, nanos: nat)
    requires Inv(s) && Clean(s) && CallEnabled(s, c, PickName(nanos)) && NewTime(s, s.calls[c].pid, nanos)
    ensures var s' := ApplyCall(s, c, PickName(nanos)); AllApart(s'.calls) && BasesClean(s'.umask, s'.calls)
  {
    FreshTemp(s, c, nanos);
    CleanName(s.umask, s.calls, c, ApplyCall(s, c, PickName(nanos)).calls[c]);
  }

  lemma FileStepBase(s: State, c: nat, a: Action)
    requires CallEnabled(s, c, a) && TouchesFiles(a) && (a == Create(true) ==> s.calls[c].temp !in s.names)
    requires Opened(s.calls[c]) ==> s.calls[c].base == s.umask
    ensures var s' := ApplyCall(s, c, a); Opened(s'.calls[c]) ==> s'.calls[c].base == s'.umask == s.umask
  {
  }

  lemma OtherStepBase(s: State, c: nat, a: Action)
    requires CallEnabled(s, c, a) && !TouchesFiles(a) && !a.PickName?
    requires Opened(s.calls[c]) ==> s.calls[c].base == s.umask
    ensures var s' := ApplyCall(s, c, a); Opened(s'.calls[c]) ==> s'.calls[c].base == s'.umask == s.umask
  {
  }

  lemma CallClean(s: State, c: nat, a: Action, s': State)
    requires Inv(s) && Clean(s) && CallEnabled(s, c, a) && PicksAtNewTime(s, By(c, a)) && s' == ApplyCall(s, c, a)
    ensures AllApart(s'.calls) && BasesClean(s'.umask, s'.calls)
  {
    if a.PickName? {
      PickClean(s, c, a.nanos);
    } else {
      if a == Create(true) { CreateClean(s, c); }
      if TouchesFiles(a) {
        FileStepProgresses(s, c, a);
        FileStepSameName(s, c, a);
        FileStepBase(s, c, a);
      } else {
        OtherStepProgresses(s, c, a);
        OtherStepSameName(s, c, a);
        OtherStepBase(s, c, a);
      }
      CleanKept(s.umask, s.calls, c, s'.calls[c]);
    }
  }

  lemma BeginClean(umask: nat, calls: seq<Call>, call: Call)
    requires AllApart(calls) && BasesClean(umask, calls) && call.pc.Start?
    ensures AllApart(calls + [call]) && BasesClean(umask, calls + [call])
  {
  }

  lemma StepClean(s: State, step: Step, s': State)
    requires Inv(s) && Clean(s) && Enabled(s, step) && PicksAtNewTime(s, step) && s' == Apply(s, step)
    ensures AllApart(s'.calls) && BasesClean(s'.umask, s'.calls) && s'.origin == s.origin
  {
    match step {
      case Begin(pid, target, content, ownerOnly) =>
        BeginClean(s.umask, s.calls, NewCall(pid, target, content, ownerOnly));
      case By(c, a) =>
        CallClean(s, c, a, s');
        if TouchesFiles(a) { FileStepProgresses(s, c, a); } else { OtherStepProgresses(s, c, a); }
      case Crash(_) =>
    }
  }

  lemma {:induction false} RunClean(s: State, steps: seq<Step>)
    requires Inv(s) && Clean(s) && IsRun(s, steps) && ClockMovesOn(s, steps)
    ensures Clean(After(s, steps))
    decreases |steps|
  {
    if steps != [] {
      StepKeeps(s, steps[0]);
      StepTraced(s, steps[0]);
      StepClean(s, steps[0], Apply(s, steps[0]));
      RunClean(Apply(s, steps[0]), steps[1..]);
    }
  }

  lemma {:induction false} UmaskStays(s: State, steps: seq<Step>)
    requires IsRun(s, steps)
    ensures After(s, steps).umask == s.umask
    decreases |steps|
  {
    if steps != [] { UmaskStays(Apply(s, steps[0]), steps[1..]); }
  }

  // Without leftovers at the start and with a clock that moves on, every new file gets
  // the mode of the umask, or owner-only if that was asked for and set.
  lemma NewFilesGetUmask(start: State, steps: seq<Step>, k: nat)
    requires Initial(start) && (forall p :: p in start.names ==> !TempShaped(p.name))
    requires IsRun(start, steps) && ClockMovesOn(start, steps) && k < |After(start, steps).commits|
    ensures var s := After(start, steps);
            && s.commits[k].call < |s.calls|
            && var call := s.calls[s.commits[k].call];
            !Restores(call) ==> s.commits[k].file.mode == if call.hardened then OWNER_ONLY else start.umask
  {
    InitialOk(start);
    RunKeeps(start, steps);
    RunClean(start, steps);
    UmaskStays(start, steps);
    var s := After(start, steps);
    assert CommitOk(s.commits[k], k, s.calls);
    assert StatOk(s.commits, s.origin, s.calls[s.commits[k].call]);
  }
}
