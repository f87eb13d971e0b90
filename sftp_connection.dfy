/*
 * The collaborators the commands drive: the remote session (SftpClient) with
 * the primitive calls a command issues, and the file system's advisory lock
 * registry (SftpFileSystem.lock / verifyNotLocked, and the release a stream
 * performs when it is closed).
 */
module SftpConnection {
  import opened SftpModel

  /** The server creates a folder only where nothing is, inside an existing folder. */
  predicate CanMkdir(t: Tree, p: Path)
  {
    |p| > 0 && p !in t && Parent(p) in t && t[Parent(p)] == Dir
  }

  /** The server opens a path for writing when it is not a folder and its parent is one. */
  predicate CanOpenForWrite(t: Tree, p: Path)
  {
    |p| > 0 && (p !in t || t[p].File?) && Parent(p) in t && t[Parent(p)] == Dir
  }

  /** What a freshly opened output stream starts from: APPEND keeps the old bytes, the other modes truncate. */
  function Initial(t: Tree, p: Path, mode: FileWriteMode): (start: seq<byte>)
  {
    if mode == APPEND && p in t && t[p].File? then t[p].content else []
  }

  /** One live SFTP session: the remote tree it sees and the calls issued on it so far. */
  class SftpClient {
    var files: Tree
    var calls: seq<RemoteCall>
    /** Turns an operation path into a canonical absolute one (resolvePath against the working directory). */
    const resolve: string -> Path

    ghost predicate Valid()
      reads this
    {
      ValidTree(files)
    }

    constructor (resolve: string -> Path, files: Tree)
      requires ValidTree(files)
      ensures Valid()
      ensures this.files == files && this.calls == [] && this.resolve == resolve
    {
      this.resolve := resolve;
      this.files := files;
      this.calls := [];
    }

    /** Stat a path. */
    method GetAttributes(p: Path) returns (a: Option<FileAttributes>)
      modifies this`calls
      ensures a == Attributes(files, p)
      ensures calls == old(calls) + [StatCall(p)]
    {
      a := Attributes(files, p);
      calls := calls + [StatCall(p)];
    }

    /** Create one folder; the server refuses when the path is taken or its parent is not a folder. */
    method Mkdir(p: Path) returns (ok: bool)
      modifies this
      ensures ok == CanMkdir(old(files), p)
      ensures files == if ok then old(files)[p := Dir] else old(files)
      ensures calls == old(calls) + [MkdirCall(p)]
    {
      ok := CanMkdir(files, p);
      if ok {
        files := files[p := Dir];
      }
      calls := calls + [MkdirCall(p)];
    }

    /** SftpClient.getOutputStream: open p for writing in the given mode, creating or truncating it. */
    method GetOutputStream(p: Path, mode: FileWriteMode) returns (ok: bool)
      modifies this
      ensures ok == CanOpenForWrite(old(files), p)
      ensures files == if ok then old(files)[p := File(Initial(old(files), p, mode))] else old(files)
      ensures calls == old(calls) + [OpenCall(p, mode)]
    {
      ok := CanOpenForWrite(files, p);
      if ok {
        files := files[p := File(Initial(files, p, mode))];
      }
      calls := calls + [OpenCall(p, mode)];
    }

    /** Push what the caller's input stream yields through the open output stream of p. */
    method Copy(p: Path, content: Content) returns (ok: bool)
      requires p in files && files[p].File?
      modifies this
      ensures ok == !content.fails
      ensures files == old(files)[p := File(old(files)[p].content + content.bytes)]
      ensures calls == old(calls) + [WriteCall(content.bytes)]
    {
      files := files[p := File(files[p].content + content.bytes)];
      calls := calls + [WriteCall(content.bytes)];
      ok := !content.fails;
    }

    /** Close the output stream of p. */
    method Close(p: Path)
      modifies this`calls
      ensures calls == old(calls) + [CloseCall(p)]
    {
      calls := calls + [CloseCall(p)];
    }
  }

  /** The file system's advisory lock registry: the canonical paths currently locked. */
  class SftpFileSystem {
    var locks: set<Path>

    constructor ()
      ensures locks == {}
    {
      locks := {};
    }

    /** Take the exclusive lock on p; fails at once, without waiting, when it is held. */
    method Lock(p: Path) returns (r: Result<PathLock, FileError>)
      modifies this
      ensures p in old(locks) ==> r == Failure(AlreadyLocked(p)) && locks == old(locks)
      ensures p !in old(locks) ==> r == Success(ActivePathLock(p)) && locks == old(locks) + {p}
    {
      if p in locks {
        r := Failure(AlreadyLocked(p));
      } else {
        locks := locks + {p};
        r := Success(ActivePathLock(p));
      }
    }

    /** Check that nobody holds the lock on p. */
    method VerifyNotLocked(p: Path) returns (err: Option<FileError>)
      ensures err == if p in locks then Some(AlreadyLocked(p)) else None
    {
      err := if p in locks then Some(AlreadyLocked(p)) else None;
    }

    /** Release a lock, as closing the stream that holds it does. */
    method Release(l: PathLock)
      modifies this
      ensures locks == Released(old(locks), l)
    {
      locks := Released(locks, l);
    }
  }
}
