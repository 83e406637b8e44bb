/** One atomic write as the code runs it, system call by system call, on a file system. */
module AtomicFile {
  import opened Bytes
  import opened AtomicWrite

  // Where the call fails, if it does; a write may fail after some bytes.
  datatype Fault = NoFault | CreateFails | WriteFailsAfter(k: nat) | RenameFails

  // Failures that the call goes on after.
  datatype Ignored = Ignored(stat: bool, harden: bool, restore: bool, removal: bool)

  function ModeOf(f: Option<File>, otherwise: nat): nat {
    match f
    case Some(file) => file.mode
    case None => otherwise
  }

  class FileSystem {
    var names: map<Path, nat>
    var files: seq<File>
    var nonce: nat
    const umask: nat

    ghost predicate Valid()
      reads this
    {
      NamesOk(names, files)
    }

    function At(p: Path): Option<File>
      reads this
    {
      if p in names && names[p] < |files| then Some(files[names[p]]) else None
    }

    constructor (umask: nat)
      ensures Valid() && names == map[] && nonce == 0
    {
      names, files, nonce := map[], [], 0;
      this.umask := umask;
    }

    // `existing_mode`
    method ExistingMode(p: Path, ignored: Ignored) returns (mode: Option<nat>)
      requires Valid()
      ensures ignored.stat || At(p).None? ==> mode == None
      ensures !ignored.stat && At(p).Some? ==> mode == Some(At(p).value.mode)
    {
      mode := if p in names && !ignored.stat then Some(files[names[p]].mode) else None;
    }

    // `next_temp`; the time comes from the clock.
    method NextTemp(target: Path, pid: nat, nanos: nat) returns (temp: Path)
      modifies this`nonce
      ensures temp == TempPath(target, pid, nanos, old(nonce)) && nonce == old(nonce) + 1
    {
      temp := TempPath(target, pid, nanos, nonce);
      nonce := nonce + 1;
    }

    // `File::create`: a leftover is truncated and keeps its mode.
    method CreateFile(p: Path) returns (inode: nat)
      requires Valid() && Alone(names, p)
      modifies this`names, this`files
      ensures Valid() && p in names && names[p] == inode < |files| && Alone(names, p)
      ensures files[inode] == File([], ModeOf(old(At(p)), umask))
      ensures forall q :: q != p ==> At(q) == old(At(q))
    {
      if p in names {
        inode := names[p];
        files := files[inode := files[inode].(content := [])];
      } else {
        inode := |files|;
        files := files + [File([], umask)];
        names := names[p := inode];
      }
    }

    // A change to an open file shows at its own path only.
    method SetFile(ghost p: Path, inode: nat, f: File)
      requires Valid() && p in names && names[p] == inode && Alone(names, p)
      modifies this`files
      ensures Valid() && |files| == |old(files)| && files[inode] == f
      ensures forall q :: q != p ==> At(q) == old(At(q))
    {
      files := files[inode := f];
    }

    // `write_all`, byte by byte, up to the fault.
    method WriteAll(ghost p: Path, inode: nat, content: seq<Byte>, fault: Fault) returns (ok: bool)
      requires Valid() && p in names && names[p] == inode && Alone(names, p) && files[inode].content == []
      modifies this`files
      ensures Valid() && |files| == |old(files)| && files[inode].mode == old(files[inode].mode)
      ensures forall q :: q != p ==> At(q) == old(At(q))
      ensures ok <==> !(fault.WriteFailsAfter? && fault.k < |content|)
      ensures ok ==> files[inode].content == content
    {
      for i := 0 to |content|
        invariant Valid() && |files| == |old(files)|
        invariant files[inode] == File(content[..i], old(files[inode].mode))
        invariant forall q :: q != p ==> At(q) == old(At(q))
        invariant fault.WriteFailsAfter? ==> fault.k >= i
      {
        if fault == WriteFailsAfter(i) {
          return false;
        }
        SetFile(p, inode, files[inode].(content := content[..i] + [content[i]]));
        assert content[..i] + [content[i]] == content[..i + 1];
      }
      assert content[..|content|] == content;
      return true;
    }

    // `rename`: one step, replacing what was at `to`.
    method RenameFile(from: Path, to: Path)
      requires Valid() && from in names && from != to
      modifies this`names
      ensures Valid() && At(to) == old(At(from)) && At(from) == None
      ensures forall q :: q != from && q != to ==> At(q) == old(At(q))
    {
      var inode := names[from];
      names := (names - {from})[to := inode];
    }

    method RemoveFile(p: Path)
      requires Valid()
      modifies this`names
      ensures Valid() && At(p) == None
      ensures forall q :: q != p ==> At(q) == old(At(q))
    {
      names := names - {p};
    }

    // `atomic_write_inner`: Ok leaves exactly the new content. Its mode is that of the
    // file found, if the stat found one and the change of mode succeeds; owner-only for
    // a private file where none was found, if that change succeeds; in all other cases
    // the mode the temp file was opened with, the umask's or that of a leftover. An
    // error leaves the target as it was. Either way no other path changes, and the temp
    // file is gone unless its removal failed. Whatever was under the temp name before is
    // reachable by that name only.
    method AtomicWriteInner(target: Path, content: seq<Byte>, ownerOnly: bool, pid: nat, nanos: nat,
                            fault: Fault, ignored: Ignored)
      returns (ok: bool)
      requires Valid() && Alone(names, TempPath(target, pid, nanos, nonce))
      modifies this
      ensures Valid() && nonce == old(nonce) + 1
      ensures ok <==> fault.NoFault? || (fault.WriteFailsAfter? && fault.k >= |content|)
      ensures var temp, before := TempPath(target, pid, nanos, old(nonce)), old(At(target));
              && (ok ==> At(target).Some? && At(target).value.content == content)
              && (!ok ==> At(target) == before)
              && (ok || !ignored.removal ==> At(temp) == None)
              && forall q :: q != target && q != temp ==> At(q) == old(At(q))
      ensures ok && old(At(target)).Some? && !ignored.stat && !ignored.restore ==>
                At(target).value.mode == old(At(target).value.mode)
      ensures ok && ownerOnly && (old(At(target)).None? || ignored.stat) && !ignored.harden ==>
                At(target).value.mode == 0x180
      ensures ok && (if old(At(target)).None? || ignored.stat then !ownerOnly || ignored.harden
                     else ignored.restore) ==>
                match old(At(TempPath(target, pid, nanos, nonce)))
                case Some(leftover) => At(target).value.mode == leftover.mode
                case None => At(target).value.mode == umask
    {
      var prev := ExistingMode(target, ignored);
      TempIsNotTarget(target, pid, nanos, nonce);
      var temp := NextTemp(target, pid, nanos);
      ok := WriteTemp(temp, target, content, ownerOnly, prev, fault, ignored);
      if !ok && !ignored.removal {
        RemoveFile(temp);
      }
    }

    // The closure whose result decides on the cleanup.
    method WriteTemp(temp: Path, target: Path, content: seq<Byte>, ownerOnly: bool, prev: Option<nat>, fault: Fault,
                     ignored: Ignored)
      returns (ok: bool)
      requires Valid() && Alone(names, temp) && temp != target
      modifies this`names, this`files
      ensures Valid()
      ensures ok <==> fault.NoFault? || (fault.WriteFailsAfter? && fault.k >= |content|)
      ensures ok ==> At(target).Some? && At(target).value.content == content
      ensures ok && prev.Some? && !ignored.restore ==> At(target).value.mode == prev.value
      ensures ok && prev.None? && ownerOnly && !ignored.harden ==> At(target).value.mode == OWNER_ONLY
      ensures ok && (if prev.None? then !ownerOnly || ignored.harden else ignored.restore) ==>
                At(target).value.mode == ModeOf(old(At(temp)), umask)
      ensures !ok ==> At(target) == old(At(target))
      ensures ok ==> At(temp) == None
      ensures forall q :: q != target && q != temp ==> At(q) == old(At(q))
    {
      if fault.CreateFails? {
        return false;
      }
      var inode := CreateFile(temp);
      if ownerOnly && prev.None? && !ignored.harden {
        SetFile(temp, inode, files[inode].(mode := OWNER_ONLY));
      }
      var written := WriteAll(temp, inode, content, fault);
      if !written {
        return false;
      }
      if prev.Some? && !ignored.restore {
        SetFile(temp, inode, files[inode].(mode := prev.value));
      }
      if fault.RenameFails? {
        return false;
      }
      RenameFile(temp, target);
      return true;
    }
  }

  // A temp name is longer than the name it is made from.
  lemma TempIsNotTarget(target: Path, pid: nat, nanos: nat, n: nat)
    ensures TempPath(target, pid, nanos, n) != target
  {
    assert |TempName(target.name, pid, nanos, n)| > |target.name|;
  }
}
