/*
 * SftpWriteCommand: write a caller's content to a remote path under a write
 * mode, probing the target first, making sure its folder exists, refusing to
 * replace an existing target in CREATE_NEW mode, then opening an output stream,
 * copying the content into it and closing it.
 */
module SftpWrite {
  import opened SftpModel
  import opened SftpConnection
  import opened SftpCommand

  /**
   * Open the output stream of p, copy the content into it and close it. A
   * refused open issues no copy and no close, and its error is wrapped again
   * by the write's catch; a copy that fails still closes the stream, and
   * leaves whatever was copied before the failure.
   */
  function OpenAndCopy(t: Tree, p: Path, mode: FileWriteMode, content: Content): (o: Outcome)
  {
    if !CanOpenForWrite(t, p) then
      Outcome(Some(Wrapped(p, Caught(Wrapped(p, OpenFailed(mode))))), t, [OpenCall(p, mode)])
    else
      Outcome(
        if content.fails then Some(Wrapped(p, CopyFailed)) else None,
        t[p := File(Initial(t, p, mode) + content.bytes)],
        [OpenCall(p, mode), WriteCall(content.bytes), CloseCall(p)])
  }

  /** The whole write of content to the canonical path p, step by step as the command takes them. */
  function WriteSpec(t: Tree, p: Path, mode: FileWriteMode, createParentDirectory: bool, content: Content): (o: Outcome)
    requires ValidTree(t)
  {
    if p in t then
      if mode == CREATE_NEW then
        Outcome(Some(FileAlreadyExists(p, mode)), t, [StatCall(p)])
      else
        var s := OpenAndCopy(t, p, mode, content);
        Outcome(s.error, s.tree, [StatCall(p)] + s.calls)
    else
      var a := AssureParentSpec(t, p, createParentDirectory);
      if a.error.Some? then
        Outcome(a.error, a.tree, [StatCall(p)] + a.calls)
      else
        var s := OpenAndCopy(a.tree, p, mode, content);
        Outcome(s.error, s.tree, [StatCall(p)] + a.calls + s.calls)
  }

  /** Every write leaves a tree the server can hold. */
  lemma WriteKeepsTreeValid(t: Tree, p: Path, mode: FileWriteMode, createParentDirectory: bool, content: Content)
    requires ValidTree(t)
    ensures ValidTree(WriteSpec(t, p, mode, createParentDirectory, content).tree)
  {
    var a := t;
    if p !in t {
      var parent := Parent(p);
      if parent !in t && createParentDirectory {
        var d := DeepestExisting(t, parent);
        assert parent[..0] == [] && parent[..|parent|] == parent;
        if t[parent[..d]] == Dir {
          forall q | q in t && IsPrefix(q, parent)
            ensures t[q] == Dir
          {
            if |q| < d {
              AncestorsExist(t, parent[..d], |q|);
              assert parent[..d][..|q|] == q;
            }
          }
          WithDirsValid(t, parent);
          a := WithDirs(t, parent);
        }
      }
    }
    assert ValidTree(a);
    if CanOpenForWrite(a, p) {
      PlaceKeepsValid(a, p, File(Initial(a, p, mode) + content.bytes));
    }
  }

  /** A write command bound to one file system and one session. */
  class SftpWriteCommand {
    const fileSystem: SftpFileSystem
    const client: SftpClient

    constructor (fileSystem: SftpFileSystem, client: SftpClient)
      ensures this.fileSystem == fileSystem && this.client == client
    {
      this.fileSystem := fileSystem;
      this.client := client;
    }

    /** Open the output stream, wrapping the session's refusal into an error naming the path and mode. */
    method GetOutputStream(path: Path, mode: FileWriteMode) returns (err: Option<FileError>)
      modifies client
      ensures err == (if CanOpenForWrite(old(client.files), path) then None else Some(Wrapped(path, OpenFailed(mode))))
      ensures err.Some? ==> client.files == old(client.files)
      ensures err.None? ==> client.files == old(client.files)[path := File(Initial(old(client.files), path, mode))]
      ensures client.calls == old(client.calls) + [OpenCall(path, mode)]
    {
      var ok := client.GetOutputStream(path, mode);
      err := if ok then None else Some(Wrapped(path, OpenFailed(mode)));
    }

    /** The try-with-resources block of write: open the stream, copy into it, always close what was opened. */
    method CopyToStream(path: Path, content: Content, mode: FileWriteMode) returns (err: Option<FileError>)
      modifies client
      ensures var s := OpenAndCopy(old(client.files), path, mode, content);
        err == s.error && client.files == s.tree && client.calls == old(client.calls) + s.calls
    {
      var refused := GetOutputStream(path, mode);
      if refused.Some? {
        return Some(Wrapped(path, Caught(refused.value)));
      }
      var copied := client.Copy(path, content);
      client.Close(path);
      err := if copied then None else Some(Wrapped(path, CopyFailed));
    }

    /**
     * Write content to filePath. The lock flag is accepted and not used: this
     * command takes no lock and leaves the file system's lock registry alone.
     */
    method Write(filePath: string, content: Content, mode: FileWriteMode, lock: bool, createParentDirectory: bool)
      returns (err: Option<FileError>)
      requires client.Valid()
      modifies client
      ensures client.Valid()
      ensures unchanged(fileSystem)
      ensures var o := WriteSpec(old(client.files), client.resolve(filePath), mode, createParentDirectory, content);
        err == o.error && client.files == o.tree && client.calls == old(client.calls) + o.calls
    {
      ghost var t, c0 := client.files, client.calls;
      var path := client.resolve(filePath);
      WriteKeepsTreeValid(t, path, mode, createParentDirectory, content);
      var file := client.GetAttributes(path);
      ghost var before := [StatCall(path)];
      if file.None? {
        err := AssureParentFolderExists(client, path, createParentDirectory);
        ghost var a := AssureParentSpec(t, path, createParentDirectory);
        AppendAssoc(c0, [StatCall(path)], a.calls);
        before := [StatCall(path)] + a.calls;
        if err.Some? {
          return;
        }
      } else if mode == CREATE_NEW {
        return Some(FileAlreadyExists(path, mode));
      }
      ghost var mid := client.calls;
      err := CopyToStream(path, content, mode);
      AppendAssoc(c0, before, client.calls[|mid|..]);
    }
  }
}
