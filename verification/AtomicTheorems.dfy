/** What readers of a target see over every interleaving, failure and crash. */
module AtomicTheorems {
  import opened Bytes
  import opened AtomicWrite

  // ---------------------------------------------------------------- the invariant

  // Which paths count as temp files is a parameter of most of what follows.
  type Shape = Path -> bool

  ghost function TempPaths(): Shape {
    (p: Path) => TempShaped(p.name)
  }

  // Its temp file exists and the call has it open.
  predicate Open(call: Call) {
    call.pc.Created? || call.pc.Writing? || call.pc.Synced? || call.pc.Moded?
  }

  // What the temp file of an open call holds.
  predicate TempFile(call: Call, f: File) {
    f.mode == FinalMode(call) &&
    match call.pc
    case Created => f.content == [] && !call.hardened && !call.restored
    case Writing(w) => w <= |call.content| && f.content == call.content[..w] && !call.restored
    case Synced => f.content == call.content && !call.restored
    case Moded => f.content == call.content
    case _ => true
  }

  predicate PathsOk(shape: Shape, call: Call) {
    !shape(call.target) && (HasTemp(call) ==> shape(call.temp))
  }

  predicate OpenOk(names: map<Path, nat>, files: seq<File>, call: Call) {
    Open(call) ==>
      && call.temp in names && names[call.temp] == call.inode < |files|
      && TempFile(call, files[call.inode])
  }

  // Of the calls of ended processes only their paths matter.
  ghost predicate CallsOk(shape: Shape, names: map<Path, nat>, files: seq<File>, dead: set<nat>, calls: seq<Call>) {
    && (forall c :: 0 <= c < |calls| ==> PathsOk(shape, calls[c]))
    && (forall c :: 0 <= c < |calls| && c !in dead ==> OpenOk(names, files, calls[c]))
  }

  // No two running calls share a temp path.
  ghost predicate TempsApart(dead: set<nat>, calls: seq<Call>) {
    forall c, d :: 0 <= c < d < |calls| && c !in dead && d !in dead && HasTemp(calls[c]) && HasTemp(calls[d]) ==>
      calls[c].temp != calls[d].temp
  }

  // Nobody else can reach a temp file.
  ghost predicate TempsAlone(shape: Shape, names: map<Path, nat>) {
    forall p :: shape(p) ==> Alone(names, p)
  }

  // The file at `p` after these commits: that of the last one there, or the original.
  function Expected(commits: seq<Commit>, origin: map<Path, File>, p: Path): Option<File> {
    if commits == [] then (if p in origin then Some(origin[p]) else None)
    else if commits[|commits| - 1].target == p then Some(commits[|commits| - 1].file)
    else Expected(commits[..|commits| - 1], origin, p)
  }

  function FileAt(names: map<Path, nat>, files: seq<File>, p: Path): Option<File> {
    if p in names && names[p] < |files| then Some(files[names[p]]) else None
  }

  ghost predicate PublishedOk(shape: Shape, names: map<Path, nat>, files: seq<File>, commits: seq<Commit>,
                              origin: map<Path, File>)
  {
    forall p :: !shape(p) ==> FileAt(names, files, p) == Expected(commits, origin, p)
  }

  function ModeIn(f: Option<File>): Option<nat> {
    match f
    case None => None
    case Some(file) => Some(file.mode)
  }

  // A stat that succeeded found the mode of the file there at the time.
  predicate StatOk(commits: seq<Commit>, origin: map<Path, File>, call: Call) {
    match call.statAt
    case None => call.prev.None?
    case Some(n) => n <= |commits| && call.prev == ModeIn(Expected(commits[..n], origin, call.target))
  }

  ghost predicate StatsOk(commits: seq<Commit>, origin: map<Path, File>, calls: seq<Call>) {
    forall c :: 0 <= c < |calls| ==> StatOk(commits, origin, calls[c])
  }

  ghost predicate Committed(commits: seq<Commit>, c: nat) {
    exists k :: 0 <= k < |commits| && commits[k].call == c
  }

  predicate CommitOk(commit: Commit, k: nat, calls: seq<Call>) {
    && commit.call < |calls| && calls[commit.call].pc.DoneOk?
    && commit.target == calls[commit.call].target
    && commit.file == File(calls[commit.call].content, FinalMode(calls[commit.call]))
    && (calls[commit.call].statAt.Some? ==> calls[commit.call].statAt.value <= k)
  }

  // A call is committed exactly when it returned Ok, and once.
  ghost predicate CommitsOk(commits: seq<Commit>, calls: seq<Call>) {
    && (forall k :: 0 <= k < |commits| ==> CommitOk(commits[k], k, calls))
    && (forall j, k :: 0 <= j < k < |commits| ==> commits[j].call != commits[k].call)
    && (forall c :: 0 <= c < |calls| && calls[c].pc.DoneOk? ==> Committed(commits, c))
  }

  ghost predicate Core(shape: Shape, s: State) {
    && NamesOk(s.names, s.files) && TempsAlone(shape, s.names)
    && CallsOk(shape, s.names, s.files, s.dead, s.calls)
    && TempsApart(s.dead, s.calls)
    && PublishedOk(shape, s.names, s.files, s.commits, s.origin)
    && CommitsOk(s.commits, s.calls)
    && StatsOk(s.commits, s.origin, s.calls)
  }

  // Temp paths are built from the call's own data, and the counter values used by
  // running processes are below their counters.
  ghost predicate Built(nonce: map<nat, nat>, dead: set<nat>, calls: seq<Call>) {
    && (forall c :: c in dead ==> c < |calls|)
    && (forall c :: 0 <= c < |calls| && HasTemp(calls[c]) ==>
          && calls[c].temp == TempPath(calls[c].target, calls[c].pid, calls[c].nanos, calls[c].n)
          && (c !in dead ==> calls[c].pid in nonce && calls[c].n < nonce[calls[c].pid]))
  }

  ghost predicate Inv(s: State) {
    Core(TempPaths(), s) && Built(s.nonce, s.dead, s.calls)
  }

  lemma InitialOk(s: State)
    requires Initial(s)
    ensures Inv(s)
  {
  }

  // ------------------------------------------------ what a change to one call keeps

  predicate SameTemp(call: Call, call': Call) {
    HasTemp(call') == HasTemp(call) && call'.temp == call.temp
  }

  lemma TempsKept(dead: set<nat>, calls: seq<Call>, c: nat, call: Call)
    requires TempsApart(dead, calls) && c < |calls| && SameTemp(calls[c], call)
    ensures TempsApart(dead, calls[c := call])
  {
  }

  lemma CommitsKept(commits: seq<Commit>, calls: seq<Call>, c: nat, call: Call)
    requires CommitsOk(commits, calls) && c < |calls| && !calls[c].pc.DoneOk? && !call.pc.DoneOk?
    ensures CommitsOk(commits, calls[c := call])
  {
    forall k | 0 <= k < |commits| ensures CommitOk(commits[k], k, calls[c := call]) {
      assert CommitOk(commits[k], k, calls);
    }
  }

  // The call changes, nothing else does.
  lemma CallMoves(shape: Shape, s: State, c: nat, call: Call, s': State)
    requires Core(shape, s) && c < |s.calls| && PathsOk(shape, call) && OpenOk(s.names, s.files, call)
    requires StatOk(s.commits, s.origin, call)
    requires SameTemp(s.calls[c], call) && !call.pc.DoneOk? && !s.calls[c].pc.DoneOk?
    requires s' == SetCall(s, c, call)
    ensures Core(shape, s')
  {
    TempsKept(s.dead, s.calls, c, call);
    CommitsKept(s.commits, s.calls, c, call);
  }

  // Nothing but what the call's temp name leads to, and that name, has changed.
  ghost predicate OnlyTemp(shape: Shape, s: State, temp: Path, names: map<Path, nat>, files: seq<File>) {
    && |s.files| <= |files|
    && (forall i :: 0 <= i < |s.files| && !(temp in s.names && i == s.names[temp]) ==> files[i] == s.files[i])
    && (forall p :: p != temp && shape(p) ==> (p in names <==> p in s.names) && (p in names ==> names[p] == s.names[p]))
  }

  // The other running calls do not notice.
  lemma OthersKept(shape: Shape, s: State, names: map<Path, nat>, files: seq<File>, c: nat, call: Call)
    requires Core(shape, s) && c < |s.calls| && c !in s.dead && HasTemp(s.calls[c])
    requires PathsOk(shape, call) && OpenOk(names, files, call)
    requires OnlyTemp(shape, s, s.calls[c].temp, names, files)
    ensures CallsOk(shape, names, files, s.dead, s.calls[c := call])
  {
    forall d | 0 <= d < |s.calls| && d != c && d !in s.dead ensures OpenOk(names, files, s.calls[d]) {
      assert OpenOk(s.names, s.files, s.calls[d]) && PathsOk(shape, s.calls[d]) && PathsOk(shape, s.calls[c]);
      if Open(s.calls[d]) {
        assert s.calls[d].temp != s.calls[c].temp;
        assert Alone(s.names, s.calls[c].temp);
      }
    }
  }

  // Nor do readers.
  lemma PublishedKept(shape: Shape, s: State, temp: Path, names: map<Path, nat>, files: seq<File>)
    requires Core(shape, s) && shape(temp) && OnlyTemp(shape, s, temp, names, files)
    requires forall p :: !shape(p) ==> (p in names <==> p in s.names) && (p in names ==> names[p] == s.names[p])
    ensures PublishedOk(shape, names, files, s.commits, s.origin)
  {
    assert Alone(s.names, temp);
    forall p | !shape(p) ensures FileAt(names, files, p) == FileAt(s.names, s.files, p) {}
  }

  // A running call moves on, together with its temp file.
  lemma TempMoves(shape: Shape, s: State, c: nat, call: Call, names: map<Path, nat>, files: seq<File>, s': State)
    requires Core(shape, s) && c < |s.calls| && c !in s.dead && HasTemp(s.calls[c])
    requires OpenOk(names, files, call) && call.target == s.calls[c].target && StatOk(s.commits, s.origin, call)
    requires SameTemp(s.calls[c], call) && !call.pc.DoneOk? && !s.calls[c].pc.DoneOk?
    requires OnlyTemp(shape, s, call.temp, names, files)
    requires forall p :: !shape(p) ==> (p in names <==> p in s.names) && (p in names ==> names[p] == s.names[p])
    requires NamesOk(names, files) && TempsAlone(shape, names)
    requires s' == s.(names := names, files := files, calls := s.calls[c := call])
    ensures Core(shape, s')
  {
    assert PathsOk(shape, s.calls[c]);
    OthersKept(shape, s, names, files, c, call);
    PublishedKept(shape, s, call.temp, names, files);
    TempsKept(s.dead, s.calls, c, call);
    CommitsKept(s.commits, s.calls, c, call);
  }

  // The open call writes its own temp file; no other call's and no published file.
  lemma FileMoves(shape: Shape, s: State, c: nat, call: Call, f: File, s': State)
    requires Core(shape, s) && c < |s.calls| && c !in s.dead && Open(s.calls[c]) && Open(call)
    requires call == s.calls[c].(pc := call.pc, hardened := call.hardened, restored := call.restored)
    requires TempFile(call, f)
    requires s' == SetCall(SetFile(s, call.inode, f), c, call)
    ensures Core(shape, s')
  {
    assert OpenOk(s.names, s.files, s.calls[c]) && StatOk(s.commits, s.origin, s.calls[c]);
    TempMoves(shape, s, c, call, s.names, s.files[call.inode := f], s');
  }

  // ---------------------------------------------------------------- step by step

  lemma StatKeeps(shape: Shape, s: State, c: nat, ok: bool)
    requires Core(shape, s) && CallEnabled(s, c, Stat(ok))
    ensures Core(shape, ApplyCall(s, c, Stat(ok)))
  {
    var call, s' := s.calls[c], ApplyCall(s, c, Stat(ok));
    assert PathsOk(shape, call);
    assert StatMode(s, call.target) == ModeIn(FileAt(s.names, s.files, call.target));
    assert s.commits[..|s.commits|] == s.commits;
    CallMoves(shape, s, c, s'.calls[c], s');
  }

  ghost predicate Owned(calls: seq<Call>, p: Path) {
    exists c :: 0 <= c < |calls| && HasTemp(calls[c]) && calls[c].temp == p
  }

  // The temp path the call picks at that time.
  function NextTemp(s: State, c: nat, nanos: nat): Path
    requires c < |s.calls|
  {
    TempPath(s.calls[c].target, s.calls[c].pid, nanos, Nonce(s, s.calls[c].pid))
  }

  // A call of an earlier process with the same number, target, time and counter value.
  predicate Namesake(s: State, d: nat, call: Call, nanos: nat) {
    && d in s.dead && d < |s.calls| && HasTemp(s.calls[d])
    && s.calls[d].pid == call.pid && s.calls[d].target == call.target
    && s.calls[d].nanos == nanos && s.calls[d].n == Nonce(s, call.pid)
  }

  // A call with the name about to be picked is a namesake: among running processes
  // the counter keeps names apart.
  lemma SameTempPath(s: State, c: nat, nanos: nat, d: nat)
    requires Inv(s) && CallEnabled(s, c, PickName(nanos)) && d < |s.calls| && HasTemp(s.calls[d])
    ensures s.calls[d].temp == NextTemp(s, c, nanos) <==> Namesake(s, d, s.calls[c], nanos)
  {
    var call, other := s.calls[c], s.calls[d];
    var n := Nonce(s, call.pid);
    assert other.temp == TempPath(other.target, other.pid, other.nanos, other.n);
    if other.temp == NextTemp(s, c, nanos) {
      TempNameInjective(other.target.name, other.pid, other.nanos, other.n, call.target.name, call.pid, nanos, n);
    }
  }

  // The name picked is taken if and only if an earlier process with the same number
  // picked it for the same target at the same time with the same counter value.
  lemma TakenIff(s: State, c: nat, nanos: nat)
    requires Inv(s) && CallEnabled(s, c, PickName(nanos))
    ensures Owned(s.calls, NextTemp(s, c, nanos)) <==> exists d :: Namesake(s, d, s.calls[c], nanos)
  {
    var temp := NextTemp(s, c, nanos);
    if Owned(s.calls, temp) {
      var d :| 0 <= d < |s.calls| && HasTemp(s.calls[d]) && s.calls[d].temp == temp;
      SameTempPath(s, c, nanos, d);
    }
    if d :| Namesake(s, d, s.calls[c], nanos) {
      SameTempPath(s, c, nanos, d);
    }
  }

  lemma TempNameShaped(stem: string, pid: nat, nanos: nat, n: nat)
    requires !TempShaped(stem)
    ensures TempShaped(TempName(stem, pid, nanos, n))
  {
    assert |stem| < |TempName(stem, pid, nanos, n)|;
  }

  // A call takes a temp path that no running call has.
  lemma NewTempKeeps(shape: Shape, s: State, c: nat, call: Call)
    requires Core(shape, s) && c < |s.calls| && s.calls[c].pc.Statted? && call.pc.Named?
    requires call.target == s.calls[c].target && StatOk(s.commits, s.origin, call)
    requires shape(call.temp)
    requires forall d :: 0 <= d < |s.calls| && d !in s.dead && HasTemp(s.calls[d]) ==> s.calls[d].temp != call.temp
    ensures Core(shape, SetCall(s, c, call))
  {
    assert PathsOk(shape, s.calls[c]);
    CommitsKept(s.commits, s.calls, c, call);
  }

  // One write appends the next `k` bytes to the temp file.
  function Appended(call: Call, f: File, k: nat): File
    requires call.pc.Writing? && call.pc.written + k <= |call.content|
  {
    f.(content := f.content + call.content[call.pc.written..call.pc.written + k])
  }

  lemma TempFileGrows(call: Call, f: File, k: nat)
    requires call.pc.Writing? && call.pc.written + k <= |call.content| && TempFile(call, f)
    ensures TempFile(call.(pc := Writing(call.pc.written + k)), Appended(call, f, k))
  {
    var w := call.pc.written;
    assert call.content[..w + k] == call.content[..w] + call.content[w..w + k];
  }

  lemma WriteStep(s: State, c: nat, k: nat)
    requires CallEnabled(s, c, WriteSome(k)) && s.calls[c].inode < |s.files|
    ensures var call, f := s.calls[c], s.files[s.calls[c].inode];
            var call' := call.(pc := Writing(call.pc.written + k));
            ApplyCall(s, c, WriteSome(k)) == SetCall(SetFile(s, call.inode, Appended(call, f, k)), c, call')
  {
  }

  lemma WriteKeeps(shape: Shape, s: State, c: nat, k: nat)
    requires Core(shape, s) && CallEnabled(s, c, WriteSome(k))
    ensures Core(shape, ApplyCall(s, c, WriteSome(k)))
  {
    var call := s.calls[c];
    assert OpenOk(s.names, s.files, call);
    WriteStep(s, c, k);
    TempFileGrows(call, s.files[call.inode], k);
    FileMoves(shape, s, c, call.(pc := Writing(call.pc.written + k)), Appended(call, s.files[call.inode], k),
              ApplyCall(s, c, WriteSome(k)));
  }

  lemma HardenKeeps(shape: Shape, s: State, c: nat, ok: bool)
    requires Core(shape, s) && CallEnabled(s, c, Harden(ok))
    ensures Core(shape, ApplyCall(s, c, Harden(ok)))
  {
    var call, s' := s.calls[c], ApplyCall(s, c, Harden(ok));
    var call' := s'.calls[c];
    assert OpenOk(s.names, s.files, call) && PathsOk(shape, call) && StatOk(s.commits, s.origin, call);
    assert call.content[..0] == [];
    if call'.hardened {
      FileMoves(shape, s, c, call', s.files[call.inode].(mode := OWNER_ONLY), s');
    } else {
      CallMoves(shape, s, c, call', s');
    }
  }

  lemma RestoreKeeps(shape: Shape, s: State, c: nat, ok: bool)
    requires Core(shape, s) && CallEnabled(s, c, RestoreMode(ok))
    ensures Core(shape, ApplyCall(s, c, RestoreMode(ok)))
  {
    var call, s' := s.calls[c], ApplyCall(s, c, RestoreMode(ok));
    var call' := s'.calls[c];
    assert OpenOk(s.names, s.files, call) && PathsOk(shape, call) && StatOk(s.commits, s.origin, call);
    if call'.restored {
      FileMoves(shape, s, c, call', s.files[call.inode].(mode := call.prev.value), s');
    } else {
      CallMoves(shape, s, c, call', s');
    }
  }

  // A leftover under the temp name is truncated.
  lemma TruncateKeeps(shape: Shape, s: State, c: nat)
    requires Core(shape, s) && CallEnabled(s, c, Create(true)) && s.calls[c].temp in s.names
    ensures Core(shape, ApplyCall(s, c, Create(true)))
  {
    var call, s' := s.calls[c], ApplyCall(s, c, Create(true));
    var i := s.names[call.temp];
    assert PathsOk(shape, call) && StatOk(s.commits, s.origin, call) && i < |s.files|;
    TempMoves(shape, s, c, s'.calls[c], s.names, s.files[i := s.files[i].(content := [])], s');
  }

  lemma MakeKeeps(shape: Shape, s: State, c: nat)
    requires Core(shape, s) && CallEnabled(s, c, Create(true)) && s.calls[c].temp !in s.names
    ensures Core(shape, ApplyCall(s, c, Create(true)))
  {
    var call, s', i := s.calls[c], ApplyCall(s, c, Create(true)), |s.files|;
    assert PathsOk(shape, call) && StatOk(s.commits, s.origin, call);
    var names, files := s.names[call.temp := i], s.files + [File([], s.umask)];
    NewName(shape, s.names, s.files, call.temp, names, files);
    TempMoves(shape, s, c, s'.calls[c], names, files, s');
  }

  lemma NewName(shape: Shape, names: map<Path, nat>, files: seq<File>, p: Path, names': map<Path, nat>,
                files': seq<File>)
    requires NamesOk(names, files) && TempsAlone(shape, names) && p !in names
    requires names' == names[p := |files|] && |files'| == |files| + 1
    ensures NamesOk(names', files') && TempsAlone(shape, names')
  {
    forall q | shape(q) ensures Alone(names', q) {
      assert Alone(names, q);
    }
  }

  // Removing a call's own temp name hurts nobody else.
  lemma UnlinkKeeps(shape: Shape, s: State, c: nat, call: Call)
    requires Core(shape, s) && c < |s.calls| && c !in s.dead && s.calls[c].pc.Failed?
    requires call == s.calls[c].(pc := DoneErr)
    ensures Core(shape, SetCall(s, c, call).(names := s.names - {call.temp}))
  {
    assert PathsOk(shape, call) && StatOk(s.commits, s.origin, s.calls[c]);
    var names := s.names - {call.temp};
    forall q | shape(q) ensures Alone(names, q) {
      assert Alone(s.names, q);
    }
    TempMoves(shape, s, c, call, names, s.files, SetCall(s, c, call).(names := names));
  }

  lemma CommitKeeps(commits: seq<Commit>, calls: seq<Call>, c: nat)
    requires CommitsOk(commits, calls) && c < |calls| && !calls[c].pc.DoneOk?
    requires calls[c].statAt.Some? ==> calls[c].statAt.value <= |commits|
    ensures var call := calls[c];
            CommitsOk(commits + [Commit(c, call.target, File(call.content, FinalMode(call)))],
                      calls[c := call.(pc := DoneOk)])
  {
    var call := calls[c];
    var commits' := commits + [Commit(c, call.target, File(call.content, FinalMode(call)))];
    var calls' := calls[c := call.(pc := DoneOk)];
    forall d | 0 <= d < |calls'| && calls'[d].pc.DoneOk? ensures Committed(commits', d) {
      if d == c {
        assert commits'[|commits|].call == c;
      } else {
        assert Committed(commits, d);
        var k :| 0 <= k < |commits| && commits[k].call == d;
        assert commits'[k] == commits[k];
      }
    }
    forall k | 0 <= k < |commits'| ensures CommitOk(commits'[k], k, calls') {
      if k < |commits| { assert CommitOk(commits[k], k, calls); }
    }
  }

  lemma StatsAfterCommit(commits: seq<Commit>, origin: map<Path, File>, calls: seq<Call>, commit: Commit, c: nat)
    requires StatsOk(commits, origin, calls) && c < |calls|
    ensures StatsOk(commits + [commit], origin, calls[c := calls[c].(pc := DoneOk)])
  {
    var calls' := calls[c := calls[c].(pc := DoneOk)];
    forall d | 0 <= d < |calls'| ensures StatOk(commits + [commit], origin, calls'[d]) {
      assert StatOk(commits, origin, calls[d]);
      if calls[d].statAt.Some? {
        var n := calls[d].statAt.value;
        assert (commits + [commit])[..n] == commits[..n];
      }
    }
  }

  // The rename swaps the complete temp file in under the target's name.
  lemma RenameKeeps(shape: Shape, s: State, c: nat)
    requires Core(shape, s) && CallEnabled(s, c, Rename(true))
    ensures Core(shape, ApplyCall(s, c, Rename(true)))
  {
    var call := s.calls[c];
    assert PathsOk(shape, call);
    var commit := Commit(c, call.target, File(call.content, FinalMode(call)));
    SwapKeeps(shape, s, c, Swapped(s.names, call.temp, call.target), commit);
  }

  function Swapped(names: map<Path, nat>, temp: Path, target: Path): map<Path, nat>
    requires temp in names
  {
    (names - {temp})[target := names[temp]]
  }

  lemma SwapNames(shape: Shape, names: map<Path, nat>, files: seq<File>, temp: Path, target: Path)
    requires NamesOk(names, files) && TempsAlone(shape, names) && temp in names && shape(temp) && !shape(target)
    ensures NamesOk(Swapped(names, temp, target), files) && TempsAlone(shape, Swapped(names, temp, target))
  {
    var names' := Swapped(names, temp, target);
    assert names'[target] == names[temp];
    assert forall p :: p in names' && p != target ==> p in names && p != temp && names'[p] == names[p];
    forall q | shape(q) ensures Alone(names', q) {
      assert Alone(names, q) && Alone(names, temp);
    }
  }

  lemma SwapKeeps(shape: Shape, s: State, c: nat, names: map<Path, nat>, commit: Commit)
    requires Core(shape, s) && c < |s.calls| && c !in s.dead && s.calls[c].pc.Moded? && s.calls[c].temp in s.names
    requires names == Swapped(s.names, s.calls[c].temp, s.calls[c].target)
    requires commit == Commit(c, s.calls[c].target, File(s.calls[c].content, FinalMode(s.calls[c])))
    ensures Core(shape, s.(names := names, calls := s.calls[c := s.calls[c].(pc := DoneOk)],
                           commits := s.commits + [commit]))
  {
    var call, call' := s.calls[c], s.calls[c].(pc := DoneOk);
    assert PathsOk(shape, call) && OpenOk(s.names, s.files, call) && StatOk(s.commits, s.origin, call);
    OthersKept(shape, s, names, s.files, c, call');
    TempsKept(s.dead, s.calls, c, call');
    SwapNames(shape, s.names, s.files, call.temp, call.target);
    CommitKeeps(s.commits, s.calls, c);
    StatsAfterCommit(s.commits, s.origin, s.calls, commit, c);
    RenamePublishes(shape, s.names, s.files, s.commits, s.origin, call.temp, commit);
  }

  lemma RenamePublishes(shape: Shape, names: map<Path, nat>, files: seq<File>, commits: seq<Commit>,
                        origin: map<Path, File>, temp: Path, commit: Commit)
    requires PublishedOk(shape, names, files, commits, origin)
    requires shape(temp) && FileAt(names, files, temp) == Some(commit.file)
    ensures PublishedOk(shape, Swapped(names, temp, commit.target), files, commits + [commit], origin)
  {
    var names', commits' := Swapped(names, temp, commit.target), commits + [commit];
    assert commits'[..|commits|] == commits;
    forall p | !shape(p) ensures FileAt(names', files, p) == Expected(commits', origin, p) {
      assert FileAt(names, files, p) == Expected(commits, origin, p);
    }
  }

  lemma BeginKeeps(shape: Shape, s: State, call: Call)
    requires Core(shape, s) && call.pc.Start? && !shape(call.target) && call.prev.None? && call.statAt.None?
    ensures Core(shape, s.(calls := s.calls + [call]))
  {
    var calls := s.calls + [call];
    forall k | 0 <= k < |s.commits| ensures CommitOk(s.commits[k], k, calls) {
      assert CommitOk(s.commits[k], k, s.calls);
    }
  }

  // Actions that change nothing but the call's own progress.
  predicate MovesOnly(a: Action) {
    a.WriteFails? || a.Sync? || (a.Create? && !a.ok) || (a.Rename? && !a.ok) || (a.Cleanup? && !a.removed)
  }

  lemma MoveKeeps(shape: Shape, s: State, c: nat, a: Action)
    requires Core(shape, s) && CallEnabled(s, c, a) && MovesOnly(a)
    ensures Core(shape, ApplyCall(s, c, a))
  {
    var call := s.calls[c];
    assert OpenOk(s.names, s.files, call) && PathsOk(shape, call) && StatOk(s.commits, s.origin, call);
    assert call.content[..|call.content|] == call.content;
    var pc := if a.Sync? then Synced else if a.Cleanup? then DoneErr else Failed;
    CallMoves(shape, s, c, call.(pc := pc), ApplyCall(s, c, a));
  }

  lemma CallStepKeeps(shape: Shape, s: State, c: nat, a: Action)
    requires Core(shape, s) && CallEnabled(s, c, a) && !a.PickName?
    ensures Core(shape, ApplyCall(s, c, a))
  {
    if MovesOnly(a) {
      MoveKeeps(shape, s, c, a);
    } else {
      match a {
        case Stat(ok) => StatKeeps(shape, s, c, ok);
        case Create(_) => if s.calls[c].temp in s.names { TruncateKeeps(shape, s, c); } else { MakeKeeps(shape, s, c); }
        case Harden(ok) => HardenKeeps(shape, s, c, ok);
        case WriteSome(k) => WriteKeeps(shape, s, c, k);
        case RestoreMode(ok) => RestoreKeeps(shape, s, c, ok);
        case Rename(_) => RenameKeeps(shape, s, c);
        case Cleanup(_) => UnlinkKeeps(shape, s, c, s.calls[c].(pc := DoneErr));
      }
    }
  }

  predicate TouchesFiles(a: Action) {
    a.Create? || a.Harden? || a.WriteSome? || a.RestoreMode?
  }

  // What the call itself becomes; the counter moves with `PickName` only.
  predicate SameName(s: State, c: nat, s': State) {
    && c < |s.calls| && |s'.calls| == |s.calls| && s'.calls == s.calls[c := s'.calls[c]]
    && s'.nonce == s.nonce && s'.dead == s.dead && SameTemp(s.calls[c], s'.calls[c])
    && s'.calls[c].target == s.calls[c].target && s'.calls[c].pid == s.calls[c].pid
    && s'.calls[c].n == s.calls[c].n && s'.calls[c].nanos == s.calls[c].nanos
  }

  lemma FileStepSameName(s: State, c: nat, a: Action)
    requires CallEnabled(s, c, a) && TouchesFiles(a)
    ensures SameName(s, c, ApplyCall(s, c, a))
  {
  }

  lemma OtherStepSameName(s: State, c: nat, a: Action)
    requires CallEnabled(s, c, a) && !TouchesFiles(a) && !a.PickName?
    ensures SameName(s, c, ApplyCall(s, c, a))
  {
  }

  // The name of a temp file is fixed when it is picked.
  lemma SameNameBuilt(s: State, c: nat, s': State)
    requires Built(s.nonce, s.dead, s.calls) && SameName(s, c, s')
    ensures Built(s'.nonce, s'.dead, s'.calls)
  {
    assert forall d :: 0 <= d < |s.calls| && d != c ==> s'.calls[d] == s.calls[d];
  }

  lemma BuiltKept(s: State, c: nat, a: Action)
    requires Built(s.nonce, s.dead, s.calls) && CallEnabled(s, c, a) && !a.PickName?
    ensures var s' := ApplyCall(s, c, a); Built(s'.nonce, s'.dead, s'.calls)
  {
    if TouchesFiles(a) { FileStepSameName(s, c, a); } else { OtherStepSameName(s, c, a); }
    SameNameBuilt(s, c, ApplyCall(s, c, a));
  }

  // The name picked belongs to no other running call.
  lemma PickNameKeeps(s: State, c: nat, nanos: nat)
    requires Inv(s) && CallEnabled(s, c, PickName(nanos))
    ensures Inv(ApplyCall(s, c, PickName(nanos)))
  {
    var call, n := s.calls[c], Nonce(s, s.calls[c].pid);
    var call' := call.(nanos := nanos, n := n, temp := NextTemp(s, c, nanos), pc := Named);
    assert PathsOk(TempPaths(), call) && StatOk(s.commits, s.origin, call);
    TempNameShaped(call.target.name, call.pid, nanos, n);
    forall d | 0 <= d < |s.calls| && d !in s.dead && HasTemp(s.calls[d]) ensures s.calls[d].temp != call'.temp {
      SameTempPath(s, c, nanos, d);
    }
    NewTempKeeps(TempPaths(), s, c, call');
    PickNameBuilt(s.nonce, s.dead, s.calls, c, call', n);
  }

  lemma PickNameBuilt(nonce: map<nat, nat>, dead: set<nat>, calls: seq<Call>, c: nat, call: Call, n: nat)
    requires Built(nonce, dead, calls) && c < |calls|
    requires call.temp == TempPath(call.target, call.pid, call.nanos, call.n) && call.n == n
    requires n == if call.pid in nonce then nonce[call.pid] else 0
    ensures Built(nonce[call.pid := n + 1], dead, calls[c := call])
  {
  }

  // The next process of that number starts counting afresh.
  lemma CrashBuilt(s: State, pid: nat)
    requires Built(s.nonce, s.dead, s.calls)
    ensures Built(s.nonce - {pid}, s.dead + CallsOf(s, pid), s.calls)
  {
  }

  lemma CrashKeeps(shape: Shape, s: State, dead: set<nat>)
    requires Core(shape, s) && s.dead <= dead
    ensures Core(shape, s.(dead := dead))
  {
  }

  lemma StepKeeps(s: State, step: Step)
    requires Inv(s) && Enabled(s, step)
    ensures Inv(Apply(s, step))
  {
    match step {
      case Begin(pid, target, content, ownerOnly) =>
        BeginKeeps(TempPaths(), s, NewCall(pid, target, content, ownerOnly));
      case By(c, a) =>
        if a.PickName? {
          PickNameKeeps(s, c, a.nanos);
        } else {
          CallStepKeeps(TempPaths(), s, c, a);
          BuiltKept(s, c, a);
        }
      case Crash(pid) =>
        CrashKeeps(TempPaths(), s, s.dead + CallsOf(s, pid));
        CrashBuilt(s, pid);
    }
  }

  lemma {:induction false} RunKeeps(s: State, steps: seq<Step>)
    requires Inv(s) && IsRun(s, steps)
    ensures Inv(After(s, steps))
    decreases |steps|
  {
    if steps != [] {
      StepKeeps(s, steps[0]);
      RunKeeps(Apply(s, steps[0]), steps[1..]);
    }
  }

  // -------------------------------------------------------------------- the theorems

  // Over every interleaving of any number of calls, with failures and process ends
  // anywhere: a target reads as the complete file of the last committed call to it, or
  // as the original file. Nothing is asked of the clock.
  lemma ReadsAreComplete(start: State, steps: seq<Step>, p: Path)
    requires Initial(start) && IsRun(start, steps) && !TempShaped(p.name)
    ensures var s := After(start, steps);
            && Read(s, p) == Expected(s.commits, s.origin, p)
            && forall k :: 0 <= k < |s.commits| ==> CommitOk(s.commits[k], k, s.calls)
  {
    InitialOk(start);
    RunKeeps(start, steps);
    assert !TempPaths()(p);
    var s := After(start, steps);
    assert Read(s, p) == FileAt(s.names, s.files, p);
  }

  // A call that returned an error is not among the commits, one that returned Ok is
  // there exactly once.
  lemma ErrNeverCommits(start: State, steps: seq<Step>, c: nat)
    requires Initial(start) && IsRun(start, steps) && c < |After(start, steps).calls|
    ensures var s := After(start, steps);
            && (s.calls[c].pc.DoneOk? <==> Committed(s.commits, c))
            && (forall j, k :: 0 <= j < k < |s.commits| ==> s.commits[j].call != s.commits[k].call)
  {
    InitialOk(start);
    RunKeeps(start, steps);
    var s := After(start, steps);
    if Committed(s.commits, c) {
      var k :| 0 <= k < |s.commits| && s.commits[k].call == c;
      assert CommitOk(s.commits[k], k, s.calls);
    }
  }

  lemma {:induction false} OriginStays(s: State, steps: seq<Step>)
    requires IsRun(s, steps)
    ensures After(s, steps).origin == s.origin
    decreases |steps|
  {
    if steps != [] { OriginStays(Apply(s, steps[0]), steps[1..]); }
  }

  // No temp name leads to the file.
  ghost predicate Settled(shape: Shape, s: State, i: nat) {
    i < |s.files| && forall p :: p in s.names && shape(p) ==> s.names[p] != i
  }

  lemma PublishedIsSettled(s: State, p: Path)
    requires Inv(s) && p in s.names && !TempShaped(p.name)
    ensures Settled(TempPaths(), s, s.names[p])
  {
    forall q | q in s.names && TempPaths()(q) ensures s.names[q] != s.names[p] {
      assert Alone(s.names, q);
    }
  }

  ghost predicate StaysSettled(shape: Shape, s: State, s': State, i: nat)
    requires i < |s.files|
  {
    Settled(shape, s', i) && s'.files[i] == s.files[i]
  }

  lemma WriterSettled(shape: Shape, s: State, c: nat, a: Action, i: nat)
    requires Core(shape, s) && CallEnabled(s, c, a) && Settled(shape, s, i)
    requires a.Harden? || a.WriteSome? || a.RestoreMode?
    ensures StaysSettled(shape, s, ApplyCall(s, c, a), i)
  {
    assert OpenOk(s.names, s.files, s.calls[c]) && PathsOk(shape, s.calls[c]);
    assert s.calls[c].inode != i;
  }

  lemma CreatorSettled(shape: Shape, s: State, c: nat, ok: bool, i: nat)
    requires Core(shape, s) && CallEnabled(s, c, Create(ok)) && Settled(shape, s, i)
    ensures StaysSettled(shape, s, ApplyCall(s, c, Create(ok)), i)
  {
    assert PathsOk(shape, s.calls[c]);
  }

  lemma OtherSettled(shape: Shape, s: State, c: nat, a: Action, i: nat)
    requires Core(shape, s) && CallEnabled(s, c, a) && Settled(shape, s, i) && !TouchesFiles(a)
    ensures StaysSettled(shape, s, ApplyCall(s, c, a), i)
  {
    assert PathsOk(shape, s.calls[c]);
  }

  lemma CallSettled(shape: Shape, s: State, c: nat, a: Action, i: nat)
    requires Core(shape, s) && CallEnabled(s, c, a) && Settled(shape, s, i)
    ensures StaysSettled(shape, s, ApplyCall(s, c, a), i)
  {
    if a.Create? {
      CreatorSettled(shape, s, c, a.ok, i);
    } else if TouchesFiles(a) {
      WriterSettled(shape, s, c, a, i);
    } else {
      OtherSettled(shape, s, c, a, i);
    }
  }

  // A reader that opened a target keeps reading the one complete version it opened,
  // whatever is renamed over the name afterwards.
  lemma {:induction false} OpenedFileNeverChanges(s: State, steps: seq<Step>, i: nat)
    requires Inv(s) && IsRun(s, steps) && Settled(TempPaths(), s, i)
    ensures StaysSettled(TempPaths(), s, After(s, steps), i)
    decreases |steps|
  {
    if steps != [] {
      StepKeeps(s, steps[0]);
      if steps[0].By? { CallSettled(TempPaths(), s, steps[0].c, steps[0].action, i); }
      OpenedFileNeverChanges(Apply(s, steps[0]), steps[1..], i);
    }
  }

  // ------------------------------------------------ why targets must not look like temps

  ghost predicate Reaches(start: State, s: State) {
    exists steps :: IsRun(start, steps) && After(start, steps) == s
  }

  lemma {:induction false} RunThen(s: State, steps: seq<Step>, step: Step)
    requires IsRun(s, steps) && Enabled(After(s, steps), step)
    ensures IsRun(s, steps + [step]) && After(s, steps + [step]) == Apply(After(s, steps), step)
    decreases |steps|
  {
    if steps == [] {
      assert [step][1..] == [];
    } else {
      RunThen(Apply(s, steps[0]), steps[1..], step);
      assert (steps + [step])[1..] == steps[1..] + [step];
    }
  }

  lemma Take(start: State, s: State, step: Step) returns (s': State)
    requires Reaches(start, s) && Enabled(s, step)
    ensures s' == Apply(s, step) && Reaches(start, s')
  {
    var steps :| IsRun(start, steps) && After(start, steps) == s;
    RunThen(start, steps, step);
    s' := Apply(s, step);
  }

  // A call of `pid` goes as far as picking its temp name.
  lemma PickOne(start: State, s: State, pid: nat, target: Path, content: seq<Byte>, nanos: nat) returns (s': State)
    requires Reaches(start, s) && s.dead == {} && !TempShaped(target.name)
    ensures Reaches(start, s') && s'.dead == {} && s'.names == s.names && s'.files == s.files
    ensures s'.commits == s.commits && s'.umask == s.umask
    ensures Nonce(s', pid) == Nonce(s, pid) + 1
    ensures |s'.calls| == |s.calls| + 1
    ensures var call := s'.calls[|s.calls|];
            && call.pc.Named? && call.pid == pid && call.content == content
            && call.temp == TempPath(target, pid, nanos, Nonce(s, pid))
  {
    var c := |s.calls|;
    var s1 := Take(start, s, Begin(pid, target, content, false));
    var s2 := Take(start, s1, By(c, Stat(true)));
    s' := Take(start, s2, By(c, PickName(nanos)));
  }

  lemma {:induction false} CounterAt(start: State, pid: nat, target: Path, n: nat) returns (s: State)
    requires Initial(start) && !TempShaped(target.name)
    ensures Reaches(start, s) && s.dead == {} && s.names == start.names && s.files == start.files
    ensures s.commits == [] && Nonce(s, pid) == n
  {
    if n == 0 {
      s := start;
      assert IsRun(start, []) && After(start, []) == start;
    } else {
      var s1 := CounterAt(start, pid, target, n - 1);
      s := PickOne(start, s1, pid, target, [], 0);
    }
  }

  // The condition on names is needed: from every start, at every name of that shape,
  // some run lets a reader see a file that is neither the original one nor the content
  // of any call to that path.
  lemma TempNamesAreExposed(start: State, p: Path) returns (s: State)
    requires Initial(start) && TempShaped(p.name)
    ensures Reaches(start, s) && s.commits == [] && Read(s, p).Some? && Read(s, p) != Expected([], start.origin, p)
  {
    var stem, pid, nanos, n :| p.name == TempName(stem, pid, nanos, n) && !TempShaped(stem);
    var target := Path(p.dir, stem);
    assert p == TempPath(target, pid, nanos, n);
    var s1 := CounterAt(start, pid, target, n);
    var c := |s1.calls|;
    var s2 := PickOne(start, s1, pid, target, [0], nanos);
    s := Take(start, s2, By(c, Create(true)));
    if Read(s, p) == Expected([], start.origin, p) {
      s := FirstByte(start, s, c, p);
    }
  }

  // The call that just created `p` writes a byte.
  lemma FirstByte(start: State, s: State, c: nat, p: Path) returns (s': State)
    requires Reaches(start, s) && CallEnabled(s, c, Harden(false))
    requires s.calls[c].content == [0] && p in s.names && s.names[p] == s.calls[c].inode < |s.files|
    ensures Reaches(start, s') && s'.commits == s.commits && Read(s', p).Some? && Read(s', p) != Read(s, p)
  {
    var s1 := Take(start, s, By(c, Harden(false)));
    s' := Take(start, s1, By(c, WriteSome(1)));
    assert |s'.files[s.names[p]].content| == |s.files[s.names[p]].content| + 1;
  }

  ghost predicate ReadsComplete(start: State, steps: seq<Step>, p: Path)
    requires IsRun(start, steps)
  {
    Read(After(start, steps), p) == Expected(After(start, steps).commits, start.origin, p)
  }

  // A name reads complete on every run if and only if it has not that shape.
  lemma CompleteIff(start: State, p: Path)
    requires Initial(start)
    ensures (forall steps | IsRun(start, steps) :: ReadsComplete(start, steps, p)) <==> !TempShaped(p.name)
  {
    if TempShaped(p.name) {
      var s := TempNamesAreExposed(start, p);
      var steps :| IsRun(start, steps) && After(start, steps) == s;
      assert !ReadsComplete(start, steps, p);
    } else {
      forall steps | IsRun(start, steps) ensures ReadsComplete(start, steps, p) {
        ReadsAreComplete(start, steps, p);
        OriginStays(start, steps);
      }
    }
  }
}
