/**
 Atomic file replacement as a transition system: any number of processes and calls,
 interleaved at every system call, any of which may fail, and a crash at any moment.
 Names map to inodes, so a reader keeps the file it opened.
 */
module AtomicWrite {
  import opened Bytes
  import opened Decimal

  // ------------------------------------------------------------------- temp names

  // `.<stem>.<pid>-<nanos>-<n>.tmp`
  function TempName(stem: string, pid: nat, nanos: nat, n: nat): string {
    "." + stem + "." + Print(pid) + "-" + Print(nanos) + "-" + Print(n) + ".tmp"
  }

  // The temp name of a name that is not one itself.
  ghost predicate TempShaped(name: string)
    decreases |name|
  {
    exists stem, pid, nanos, n :: |stem| < |name| && name == TempName(stem, pid, nanos, n) && !TempShaped(stem)
  }

  // The last `c` splits a string in one way only.
  lemma SplitAtLast(a: string, d: string, b: string, e: string, c: char)
    requires a + [c] + d == b + [c] + e && c !in d && c !in e
    ensures a == b && d == e
  {
    var s, t := a + [c] + d, b + [c] + e;
    assert s[|a|] == c && t[|b|] == c;
    assert forall i :: |a| < i < |s| ==> s[i] == d[i - |a| - 1];
    assert forall i :: |b| < i < |t| ==> t[i] == e[i - |b| - 1];
    assert s[..|a|] == a && t[..|b|] == b;
    assert s[|a| + 1..] == d && t[|b| + 1..] == e;
  }

  lemma DigitsHaveNo(n: nat, c: char)
    requires !IsDigit(c)
    ensures c !in Print(n)
  {
  }

  // Temp names determine everything they are made of.
  lemma TempNameInjective(stem: string, pid: nat, nanos: nat, n: nat, stem': string, pid': nat, nanos': nat, n': nat)
    requires TempName(stem, pid, nanos, n) == TempName(stem', pid', nanos', n')
    ensures stem == stem' && pid == pid' && nanos == nanos' && n == n'
  {
    var s1, t1 := "." + stem, "." + stem';
    var s2, t2 := s1 + "." + Print(pid), t1 + "." + Print(pid');
    var s3, t3 := s2 + "-" + Print(nanos), t2 + "-" + Print(nanos');
    var s4, t4 := s3 + "-" + Print(n), t3 + "-" + Print(n');
    var name := TempName(stem, pid, nanos, n);
    assert name == s4 + ".tmp" == t4 + ".tmp";
    assert name[..|name| - 4] == s4 == t4;
    DigitsHaveNo(n, '-');
    DigitsHaveNo(n', '-');
    SplitAtLast(s3, Print(n), t3, Print(n'), '-');
    DigitsHaveNo(nanos, '-');
    DigitsHaveNo(nanos', '-');
    SplitAtLast(s2, Print(nanos), t2, Print(nanos'), '-');
    DigitsHaveNo(pid, '.');
    DigitsHaveNo(pid', '.');
    SplitAtLast(s1, Print(pid), t1, Print(pid'), '.');
    assert s1[1..] == stem && t1[1..] == stem';
    PrintInjective(n, n');
    PrintInjective(nanos, nanos');
    PrintInjective(pid, pid');
  }

  // ------------------------------------------------------------------- the system

  datatype Path = Path(dir: string, name: string)

  datatype File = File(content: seq<Byte>, mode: nat)

  const OWNER_ONLY: nat := 0x180   // 0o600

  datatype Pc =
    | Start                 // about to stat the target
    | Statted               // about to pick the temp name
    | Named                 // about to create the temp file
    | Created               // about to restrict its mode, if private and new
    | Writing(written: nat)
    | Synced                // about to restore the mode
    | Moded                 // about to rename
    | Failed                // about to remove the temp file
    | DoneOk
    | DoneErr

  // `prev` is the mode found by the stat; `nanos` and the counter value `n` go into the
  // temp name. For the record: `statAt` is how many commits there were at a stat that
  // succeeded, `base` the mode the temp file had when it was opened, `hardened` and
  // `restored` whether its mode was then changed.
  datatype Call = Call(pid: nat, target: Path, content: seq<Byte>, ownerOnly: bool, pc: Pc,
                       prev: Option<nat>, statAt: Option<nat>, nanos: nat, n: nat, temp: Path, inode: nat,
                       base: nat, hardened: bool, restored: bool)

  function NewCall(pid: nat, target: Path, content: seq<Byte>, ownerOnly: bool): Call {
    Call(pid, target, content, ownerOnly, Start, None, None, 0, 0, target, 0, 0, false, false)
  }

  // A rename that succeeded: by whom, where, and the file that a complete write of that
  // call is meant to leave there.
  datatype Commit = Commit(call: nat, target: Path, file: File)

  /**
   `names` and `files` are the file system, inodes being indices of `files`; several
   names may share an inode. `origin` is the files at the start. `nonce` is the counters
   of the processes now running, `dead` the calls of processes that ended. `commits`
   lists the calls whose rename succeeded, in order.
   */
  datatype State = State(
    names: map<Path, nat>,
    files: seq<File>,
    origin: map<Path, File>,
    umask: nat,
    nonce: map<nat, nat>,
    dead: set<nat>,
    calls: seq<Call>,
    commits: seq<Commit>)

  function Nonce(s: State, pid: nat): nat {
    if pid in s.nonce then s.nonce[pid] else 0
  }

  datatype Action =
    | Stat(ok: bool)
    | PickName(nanos: nat)
    | Create(ok: bool)
    | Harden(ok: bool)
    | WriteSome(k: nat)
    | WriteFails
    | Sync
    | RestoreMode(ok: bool)
    | Rename(ok: bool)
    | Cleanup(removed: bool)

  datatype Step =
    | Begin(pid: nat, target: Path, content: seq<Byte>, ownerOnly: bool)
    | By(c: nat, action: Action)
    | Crash(pid: nat)

  predicate CallEnabled(s: State, c: nat, a: Action) {
    c < |s.calls| && c !in s.dead &&
    var call := s.calls[c];
    match a
    case Stat(_) => call.pc.Start?
    case PickName(_) => call.pc.Statted?
    case Create(_) => call.pc.Named?
    case Harden(_) => call.pc.Created?
    case WriteSome(k) => call.pc.Writing? && call.pc.written + k <= |call.content|
    case WriteFails => call.pc.Writing?
    case Sync => call.pc.Writing? && call.pc.written == |call.content|
    case RestoreMode(_) => call.pc.Synced?
    case Rename(ok) => call.pc.Moded? && (ok ==> call.temp in s.names)
    case Cleanup(_) => call.pc.Failed?
  }

  predicate HasTemp(call: Call) {
    !call.pc.Start? && !call.pc.Statted?
  }

  // Callers name their own files, not someone's temp file.
  ghost predicate Enabled(s: State, step: Step) {
    match step
    case Begin(_, target, _, _) => !TempShaped(target.name)
    case By(c, a) => CallEnabled(s, c, a)
    case Crash(_) => true
  }

  function CallsOf(s: State, pid: nat): set<nat> {
    set c: nat | c < |s.calls| && s.calls[c].pid == pid
  }

  function SetCall(s: State, c: nat, call: Call): State
    requires c < |s.calls|
  {
    s.(calls := s.calls[c := call])
  }

  function SetFile(s: State, i: nat, f: File): State {
    if i < |s.files| then s.(files := s.files[i := f]) else s
  }

  function TempPath(target: Path, pid: nat, nanos: nat, n: nat): Path {
    Path(target.dir, TempName(target.name, pid, nanos, n))
  }

  // The temp file is a hidden sibling of the target.
  lemma TempIsSibling(target: Path, pid: nat, nanos: nat, n: nat)
    ensures var temp := TempPath(target, pid, nanos, n);
            && temp.dir == target.dir
            && "." + target.name + "." <= temp.name
            && |temp.name| > 4 && temp.name[|temp.name| - 4..] == ".tmp"
            && temp.name != target.name
  {
  }

  // The mode of the call's temp file, and of what it publishes: the one found before,
  // or owner-only, if that was set; else the one it was opened with.
  function FinalMode(call: Call): nat {
    if call.restored && call.prev.Some? then call.prev.value
    else if call.hardened then OWNER_ONLY
    else call.base
  }

  // `set_permissions` goes by name.
  function Chmod(s: State, p: Path, mode: nat): State {
    if p in s.names && s.names[p] < |s.files| then SetFile(s, s.names[p], s.files[s.names[p]].(mode := mode)) else s
  }

  function StatMode(s: State, p: Path): Option<nat> {
    if p in s.names && s.names[p] < |s.files| then Some(s.files[s.names[p]].mode) else None
  }

  // `File::create`: truncates what is there and keeps its mode, or makes a new file.
  function CreateAt(s: State, p: Path): (State, nat) {
    if p in s.names && s.names[p] < |s.files| then
      (SetFile(s, s.names[p], s.files[s.names[p]].(content := [])), s.names[p])
    else (s.(names := s.names[p := |s.files|], files := s.files + [File([], s.umask)]), |s.files|)
  }

  // A stat that fails looks like a target that is not there, and a failed change of
  // mode is ignored.
  function ApplyCall(s: State, c: nat, a: Action): State
    requires CallEnabled(s, c, a)
  {
    var call := s.calls[c];
    match a
    case Stat(ok) =>
      SetCall(s, c, if ok then call.(prev := StatMode(s, call.target), statAt := Some(|s.commits|), pc := Statted)
                    else call.(prev := None, statAt := None, pc := Statted))
    case PickName(nanos) =>
      var n := Nonce(s, call.pid);
      SetCall(s, c, call.(nanos := nanos, n := n, temp := TempPath(call.target, call.pid, nanos, n), pc := Named)).(
        nonce := s.nonce[call.pid := n + 1])
    case Create(ok) =>
      if !ok then SetCall(s, c, call.(pc := Failed))
      else
        var (s', i) := CreateAt(s, call.temp);
        var base := match StatMode(s, call.temp) case Some(mode) => mode case None => s.umask;
        SetCall(s', c, call.(inode := i, base := base, hardened := false, restored := false, pc := Created))
    case Harden(ok) =>
      var hardened := call.ownerOnly && call.prev.None? && ok;
      SetCall(if hardened then Chmod(s, call.temp, OWNER_ONLY) else s,
              c, call.(hardened := hardened, pc := Writing(0)))
    case WriteSome(k) =>
      var part := call.content[call.pc.written..call.pc.written + k];
      SetCall(if call.inode < |s.files|
              then SetFile(s, call.inode, s.files[call.inode].(content := s.files[call.inode].content + part)) else s,
              c, call.(pc := Writing(call.pc.written + k)))
    case WriteFails => SetCall(s, c, call.(pc := Failed))
    case Sync => SetCall(s, c, call.(pc := Synced))
    case RestoreMode(ok) =>
      var restored := call.prev.Some? && ok;
      SetCall(if restored then Chmod(s, call.temp, call.prev.value) else s,
              c, call.(restored := restored, pc := Moded))
    case Rename(ok) =>
      if !ok then SetCall(s, c, call.(pc := Failed))
      else SetCall(s, c, call.(pc := DoneOk)).(
             names := (s.names - {call.temp})[call.target := s.names[call.temp]],
             commits := s.commits + [Commit(c, call.target, File(call.content, FinalMode(call)))])
    case Cleanup(removed) =>
      SetCall(s, c, call.(pc := DoneErr)).(names := if removed then s.names - {call.temp} else s.names)
  }

  // A process may end at any moment, its calls with it. Its number may then be given
  // to a new process, whose counter starts from 0 again.
  function Apply(s: State, step: Step): State
    requires step.By? ==> CallEnabled(s, step.c, step.action)
  {
    match step
    case Begin(pid, target, content, ownerOnly) =>
      s.(calls := s.calls + [NewCall(pid, target, content, ownerOnly)])
    case By(c, a) => ApplyCall(s, c, a)
    case Crash(pid) => s.(dead := s.dead + CallsOf(s, pid), nonce := s.nonce - {pid})
  }

  ghost predicate IsRun(s: State, steps: seq<Step>)
    decreases |steps|
  {
    steps == [] || (Enabled(s, steps[0]) && IsRun(Apply(s, steps[0]), steps[1..]))
  }

  ghost function After(s: State, steps: seq<Step>): State
    requires IsRun(s, steps)
    decreases |steps|
  {
    if steps == [] then s else After(Apply(s, steps[0]), steps[1..])
  }

  // No call has run. Hard links are allowed, except to leftover temp files.
  ghost predicate Initial(s: State) {
    && NamesOk(s.names, s.files)
    && (forall p: Path :: TempShaped(p.name) ==> Alone(s.names, p))
    && s.origin == (map p | p in s.names :: s.files[s.names[p]])
    && s.nonce == map[] && s.dead == {} && s.calls == [] && s.commits == []
  }

  ghost predicate NamesOk(names: map<Path, nat>, files: seq<File>) {
    forall p :: p in names ==> names[p] < |files|
  }

  // No other name leads to the file at `p`.
  ghost predicate Alone(names: map<Path, nat>, p: Path) {
    p in names ==> forall q :: q in names && q != p ==> names[q] != names[p]
  }

  function Read(s: State, p: Path): Option<File> {
    if p in s.names && s.names[p] < |s.files| then Some(s.files[s.names[p]]) else None
  }
}
