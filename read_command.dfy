/*
 * SftpReadCommand: read a remote file as a stream, after checking that it
 * exists and is not a folder, and either taking its advisory lock or checking
 * that nobody holds it.
 */
module SftpRead {
  import opened SftpModel
  import opened SftpConnection
  import opened SftpCommand

  /**
   * The lazily opened input stream a read returns: the bytes it yields once
   * consumed, and the lock it holds until it is closed.
   */
  datatype SftpInputStream = SftpInputStream(content: seq<byte>, lock: PathLock)

  /** A read's result: the payload stream and the attributes of the file read. */
  datatype ReadOutput = ReadOutput(payload: SftpInputStream, attributes: FileAttributes)

  /** What a read leaves behind: its result or error, and the lock registry afterwards. */
  datatype ReadOutcome = ReadOutcome(result: Result<ReadOutput, FileError>, locks: set<Path>)

  /** The read of the canonical path p against the tree t and the lock registry locks. */
  function ReadSpec(t: Tree, locks: set<Path>, p: Path, lock: bool): (o: ReadOutcome)
  {
    if p !in t then ReadOutcome(Failure(NotFound(p)), locks)
    else if t[p] == Dir then ReadOutcome(Failure(CannotReadDirectory(p)), locks)
    else if p in locks then ReadOutcome(Failure(AlreadyLocked(p)), locks)
    else
      var l := if lock then ActivePathLock(p) else NullPathLock;
      ReadOutcome(
        Success(ReadOutput(SftpInputStream(t[p].content, l), Attributes(t, p).value)),
        if lock then locks + {p} else locks)
  }

  /** A read command bound to one file system and one session. */
  class SftpReadCommand {
    const fileSystem: SftpFileSystem
    const client: SftpClient

    constructor (fileSystem: SftpFileSystem, client: SftpClient)
      ensures this.fileSystem == fileSystem && this.client == client
    {
      this.fileSystem := fileSystem;
      this.client := client;
    }

    /** SftpReadCommand.read: one stat of the resolved path, then the lock or the lock check. */
    method Read(filePath: string, lock: bool) returns (r: Result<ReadOutput, FileError>)
      modifies fileSystem, client`calls
      ensures var o := ReadSpec(client.files, old(fileSystem.locks), client.resolve(filePath), lock);
        r == o.result && fileSystem.locks == o.locks
      ensures client.calls == old(client.calls) + [StatCall(client.resolve(filePath))]
    {
      var found := GetExistingFile(client, filePath);
      if found.Failure? {
        return Failure(found.error);
      }
      var attributes := found.value;
      if attributes.isDirectory {
        return Failure(CannotReadDirectory(attributes.path));
      }
      var path := attributes.path;
      var pathLock: PathLock;
      if lock {
        var taken := fileSystem.Lock(path);
        if taken.Failure? {
          return Failure(taken.error);
        }
        pathLock := taken.value;
      } else {
        var held := fileSystem.VerifyNotLocked(path);
        if held.Some? {
          return Failure(held.value);
        }
        pathLock := NullPathLock;
      }
      r := Success(ReadOutput(SftpInputStream(client.files[path].content, pathLock), attributes));
    }
  }
}
