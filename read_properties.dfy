/*
 * What a read promises, stated over ReadSpec: the refusals, when a read
 * succeeds, what a locked read holds, that a second locked read of the same
 * file fails until the first stream is closed, and that a file written with
 * CREATE_NEW reads back as exactly the bytes written.
 */
module SftpReadProperties {
  import opened SftpModel
  import opened SftpConnection
  import opened SftpCommand
  import opened SftpWrite
  import opened SftpRead
  import opened SftpWriteProperties

  /** Nothing at the path: NotFound, and the lock registry is left alone. */
  lemma ReadMissingIsNotFound(t: Tree, locks: set<Path>, p: Path, lock: bool)
    requires p !in t
    ensures ReadSpec(t, locks, p, lock) == ReadOutcome(Failure(NotFound(p)), locks)
  {
  }

  /** A folder is not read, locked or not, and no lock is taken. */
  lemma ReadFolderIsRefused(t: Tree, locks: set<Path>, p: Path, lock: bool)
    requires p in t && t[p] == Dir
    ensures ReadSpec(t, locks, p, lock) == ReadOutcome(Failure(CannotReadDirectory(p)), locks)
  {
  }

  /**
   * A read succeeds exactly when a file is there and nobody holds its lock; the
   * registry gains the path exactly when a locked read succeeds, and a failed
   * read leaves it as it was.
   */
  lemma ReadSucceedsIff(t: Tree, locks: set<Path>, p: Path, lock: bool)
    ensures var o := ReadSpec(t, locks, p, lock);
      && (o.result.Success? <==> p in t && t[p].File? && p !in locks)
      && o.locks == (if o.result.Success? && lock then locks + {p} else locks)
      && (o.result.Failure? && p in t && t[p].File? ==> o.result.error == AlreadyLocked(p))
  {
  }

  /**
   * A successful read yields the file's bytes and its regular-file attributes,
   * and its stream holds the path's lock exactly when the read was locked.
   */
  lemma ReadResultDescribesFile(t: Tree, locks: set<Path>, p: Path, lock: bool)
    requires ReadSpec(t, locks, p, lock).result.Success?
    ensures var out := ReadSpec(t, locks, p, lock).result.value;
      && out.payload.content == t[p].content
      && out.attributes.path == p && out.attributes.isRegularFile && !out.attributes.isDirectory
      && out.attributes.size == |out.payload.content|
      && out.payload.lock == (if lock then ActivePathLock(p) else NullPathLock)
  {
  }

  /**
   * Two operation paths naming the same file: once a locked read of the first
   * succeeds, a read of the second fails with AlreadyLocked, locked or not.
   */
  lemma SecondReadIsLockedOut(resolve: string -> Path, t: Tree, locks: set<Path>, f1: string, f2: string, lock2: bool)
    requires resolve(f1) == resolve(f2)
    requires ReadSpec(t, locks, resolve(f1), true).result.Success?
    ensures var o1 := ReadSpec(t, locks, resolve(f1), true);
      var o2 := ReadSpec(t, o1.locks, resolve(f2), lock2);
      o2.result == Failure(AlreadyLocked(resolve(f2))) && o2.locks == o1.locks
  {
  }

  /**
   * Closing the stream of a successful read gives back the registry it found,
   * so the file can be locked again.
   */
  lemma CloseThenRelock(t: Tree, locks: set<Path>, p: Path, lock: bool)
    requires ReadSpec(t, locks, p, lock).result.Success?
    ensures var o1 := ReadSpec(t, locks, p, lock);
      var after := Released(o1.locks, o1.result.value.payload.lock);
      after == locks && ReadSpec(t, after, p, true).result.Success?
  {
  }

  /**
   * Round trip: a file written with CREATE_NEW, when the write reports no
   * error, reads back (if nobody holds its lock) as exactly the bytes written.
   */
  lemma CreateNewThenRead(t: Tree, locks: set<Path>, p: Path, createParentDirectory: bool, bytes: seq<byte>, lock: bool)
    requires ValidTree(t) && p !in locks
    requires WriteSpec(t, p, CREATE_NEW, createParentDirectory, Content(bytes, false)).error == None
    ensures var w := WriteSpec(t, p, CREATE_NEW, createParentDirectory, Content(bytes, false));
      var o := ReadSpec(w.tree, locks, p, lock);
      && o.result.Success?
      && o.result.value.payload.content == bytes
      && o.result.value.attributes.size == |bytes|
  {
    assert [] + bytes == bytes;
  }

  /**
   * A file read without a lock can be overwritten while its stream is open:
   * the read takes no lock, its payload is the file's bytes at the time of the
   * read, and the write replaces the file with the new bytes.
   */
  lemma UnlockedReadThenOverwrite(t: Tree, locks: set<Path>, p: Path, createParentDirectory: bool, bytes: seq<byte>)
    requires ValidTree(t) && p in t && t[p].File? && p !in locks
    ensures var r := ReadSpec(t, locks, p, false);
      && r.result.Success? && r.result.value.payload.content == t[p].content && r.locks == locks
      && var w := WriteSpec(t, p, OVERWRITE, createParentDirectory, Content(bytes, false));
      w.error == None && w.tree[p] == File(bytes)
  {
    ExistingFileByMode(t, p, OVERWRITE, createParentDirectory, bytes);
  }
}
