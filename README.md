# SFTP file commands: write and read

A model of the file-command layer of an SFTP connector. This layer turns a
generic file operation into a sequence of primitive calls on one SFTP session,
and it keeps the invariants that the protocol does not enforce on its own:
CREATE_NEW never overwrites, a folder is never read as a file, and an
advisory lock is held for exactly as long as a read stream is open.

The model covers two commands:

- **`SftpWriteCommand.write`** (`write_command.dfy`). It stats the
  target. If the target is missing, it makes sure the parent folder exists,
  creating the missing folders when that is allowed. It refuses CREATE_NEW on
  an existing target. It then opens an output stream in the requested mode,
  copies the caller's content into it, and closes the stream.
- **`SftpReadCommand.read`** (`read_command.dfy`). It stats the target,
  refuses a folder, and then either takes the target's advisory lock or checks
  that nobody holds it. It returns a stream bound to that lock, together with
  the file's attributes.

They are built on these parts:

- **State** (`sftp_model.dfy`):
  - the remote tree, a map from canonical path to folder or file bytes;
  - the stat attributes;
  - the write modes;
  - the error kinds;
  - the advisory locks;
  - the log of primitive remote calls.
- **Collaborators** (`sftp_connection.dfy`):
  - the session `SftpClient`, a class whose tree and call log the commands
    update;
  - the lock registry `SftpFileSystem`, a class holding the set of locked
    paths.
- **Shared helpers** (`sftp_command.dfy`), from the `SftpCommand` base
  class:
  - `getExistingFile`;
  - `assureParentFolderExists`;
  - `mkdirs`.

  `SftpCommand.java` is not part of this model. Only the outcomes of these
  helpers are fixed by the commands' callers and tests: NotFound for a missing
  read target, IllegalPath for a missing parent without folder creation, and
  the parents created with it. The sequence of remote calls they issue is an
  assumption of this model, stated under "## Left out".

Each imperative member is proved equal to a specification function over the
old state: `WriteSpec`, `AssureParentSpec`, `MkdirsSpec`,
`OpenAndCopy` and `ReadSpec`. The properties the commands promise are
proved as lemmas about those functions, in `write_properties.dfy` and
`read_properties.dfy`.

Two points of the commands' own code shape the model:

- **`write` takes no lock.** `write` receives a `lock` flag it never reads
  (`src/main/java/org/mule/extension/sftp/internal/command/SftpWriteCommand.java:45-67`), so `SftpWrite.SftpWriteCommand.Write` takes no lock, leaves
  the lock registry unchanged, and writes a path even while a read holds that
  path's lock.
- **An open refused during `write` is wrapped twice.** `getOutputStream`
  wraps the session's refusal (`src/main/java/org/mule/extension/sftp/internal/command/SftpWriteCommand.java:69-75`). It runs inside the
  try-with-resources, so the write's own catch wraps that error once more
  (`src/main/java/org/mule/extension/sftp/internal/command/SftpWriteCommand.java:61-66`). The model records this as
  `Wrapped(p, Caught(Wrapped(p, OpenFailed(mode))))`, on the assumption that
  the base class's `exception(message, cause)` always adds a wrapper
  (`SftpCommand.java` is not part of this model).

## Model

| member | source | states |
|---|---|---|
| SftpModel.Attributes | src/main/java/org/mule/extension/sftp/internal/command/SftpReadCommand.java:46-51 | The stat of a path is present exactly when something is there. It carries the canonical path and its last segment, says whether the entry is a folder or a regular file (never both), and for a file gives the size as its byte count. |
| SftpModel.DeepestExisting | src/main/java/org/mule/extension/sftp/internal/command/SftpWriteCommand.java:51 | Walking up from a missing folder finds the longest existing prefix: that prefix exists and every deeper prefix is missing. |
| SftpModel.WithDirsContents | src/main/java/org/mule/extension/sftp/internal/command/SftpWriteCommand.java:51 | Creating the missing folders of a path keeps every existing entry unchanged. New entries are exactly the missing prefixes of the path, and each new entry is a folder. |
| SftpModel.WithDirsValid | src/main/java/org/mule/extension/sftp/internal/command/SftpWriteCommand.java:51 | Creating the missing folders of a path whose existing prefixes are all folders leaves a well-formed tree: the root is a folder and every entry sits in a folder. |
| SftpModel.Released | src/main/java/org/mule/extension/sftp/internal/command/SftpReadCommand.java:53-62 | Releasing the active lock of a path removes exactly that path from the registry. Releasing the null lock of an unlocked read changes nothing. |
| SftpConnection.SftpClient.GetAttributes | src/main/java/org/mule/extension/sftp/internal/command/SftpWriteCommand.java:48 | A stat returns the attributes of the path, logs one stat call, and changes nothing on the server. |
| SftpConnection.SftpClient.Mkdir | src/main/java/org/mule/extension/sftp/internal/command/SftpWriteCommand.java:51 | A folder is created exactly when nothing is at the path and its parent is a folder. Otherwise the tree is unchanged. One mkdir call is logged either way. |
| SftpConnection.SftpClient.GetOutputStream | src/main/java/org/mule/extension/sftp/internal/command/SftpWriteCommand.java:71 | An output stream opens exactly when the path is not a folder and its parent is a folder. On opening, the file starts from its old bytes in APPEND mode and empty in the other modes. |
| SftpConnection.SftpClient.Copy | src/main/java/org/mule/extension/sftp/internal/command/SftpWriteCommand.java:62 | Copying appends every byte the input stream yields to the open file. The copy reports failure exactly when the input stream throws. |
| SftpConnection.SftpClient.Close | src/main/java/org/mule/extension/sftp/internal/command/SftpWriteCommand.java:61 | Closing the output stream logs a close of that path. |
| SftpConnection.SftpFileSystem.Lock | src/main/java/org/mule/extension/sftp/internal/command/SftpReadCommand.java:55 | Taking a lock fails at once with AlreadyLocked when the path is held. Otherwise it adds exactly that path to the registry and returns its active lock. |
| SftpConnection.SftpFileSystem.VerifyNotLocked | src/main/java/org/mule/extension/sftp/internal/command/SftpReadCommand.java:57 | The check reports AlreadyLocked exactly when the path is held, and it changes nothing. |
| SftpConnection.SftpFileSystem.Release | src/main/java/org/mule/extension/sftp/internal/command/SftpReadCommand.java:62 | Closing a stream leaves the registry without that stream's lock. |
| SftpCommand.GetExistingFile | src/main/java/org/mule/extension/sftp/internal/command/SftpReadCommand.java:46 | The resolved path's attributes when something is there, NotFound with the canonical path otherwise. Exactly one stat is issued. |
| SftpCommand.FindDeepestExisting | src/main/java/org/mule/extension/sftp/internal/command/SftpWriteCommand.java:51 | The upward stat loop stops at the deepest existing prefix, after stating each missing prefix once, innermost first. |
| SftpCommand.CreateBelow | src/main/java/org/mule/extension/sftp/internal/command/SftpWriteCommand.java:51 | Below a folder prefix, every missing folder is created outermost first and the tree gains exactly those folders. Below a file prefix, the first mkdir fails, nothing changes, and the error names that path. |
| SftpCommand.Mkdirs | src/main/java/org/mule/extension/sftp/internal/command/SftpWriteCommand.java:51 | mkdirs of a missing folder matches its specification in error, new tree and call log, and leaves a well-formed tree. |
| SftpCommand.AssureParentFolderExists | src/main/java/org/mule/extension/sftp/internal/command/SftpWriteCommand.java:50-51 | For a missing target, nothing is done when the parent exists. IllegalPath is reported when the parent is missing and creation is off. Otherwise the parent is created with mkdirs. The tree stays well formed. |
| SftpWrite.SftpWriteCommand.constructor | src/main/java/org/mule/extension/sftp/internal/command/SftpWriteCommand.java:37-39 | A write command is bound to the file system and the session it is given. |
| SftpWrite.WriteKeepsTreeValid | src/main/java/org/mule/extension/sftp/internal/command/SftpWriteCommand.java:45-67 | Every write, in every mode, with or without folder creation, leaves a well-formed tree. |
| SftpWrite.SftpWriteCommand.GetOutputStream | src/main/java/org/mule/extension/sftp/internal/command/SftpWriteCommand.java:69-75 | Opening the stream either succeeds, or reports an error naming the path and the mode and leaves the tree unchanged. |
| SftpWrite.SftpWriteCommand.CopyToStream | src/main/java/org/mule/extension/sftp/internal/command/SftpWriteCommand.java:61-66 | Open, copy and close behave as specified. A refused open is wrapped by the write's catch and issues no copy and no close. A failed copy still closes the stream. |
| SftpWrite.SftpWriteCommand.Write | src/main/java/org/mule/extension/sftp/internal/command/SftpWriteCommand.java:45-67 | The write matches its specification in error, new tree and call log, keeps the tree well formed, and leaves the lock registry unchanged. |
| SftpWriteProperties.CreateNewOnExistingIsRefused | src/main/java/org/mule/extension/sftp/internal/command/SftpWriteCommand.java:52-58 | CREATE_NEW on an existing target fails with FileAlreadyExists for that path and mode. Only the stat is issued and nothing changes. |
| SftpWriteProperties.MissingParentIsIllegalPath | src/test/java/org/mule/extension/sftp/SftpWriteTestCase.java:82-101 | Without folder creation, a target whose parent is missing fails with IllegalPath in every mode. No stream is opened and nothing changes. |
| SftpWriteProperties.CreatedParentsHoldNewFile | src/test/java/org/mule/extension/sftp/SftpWriteTestCase.java:103-116 | With folder creation on, a new target whose path crosses no file is written in every mode. Every folder above it then exists and the file holds exactly the written bytes. |
| SftpWriteProperties.NewFileHoldsContent | src/test/java/org/mule/extension/sftp/SftpWriteTestCase.java:48-61 | A new target in an existing folder holds exactly the written bytes in every mode, and nothing else changes. |
| SftpWriteProperties.ExistingFileByMode | src/test/java/org/mule/extension/sftp/SftpWriteTestCase.java:63-73 | On an existing file, APPEND leaves the old bytes followed by the new ones and OVERWRITE leaves only the new ones. |
| SftpWriteProperties.FolderIsNeverWritten | src/main/java/org/mule/extension/sftp/internal/command/SftpWriteCommand.java:52-66 | A folder is never written: CREATE_NEW fails as existing, and the other modes fail to open. The tree is unchanged. |
| SftpWriteProperties.FileOnPathBlocksWrite | src/main/java/org/mule/extension/sftp/internal/command/SftpWriteCommand.java:50-51 | A new target whose path crosses an existing file fails whatever the flags, and the tree is unchanged. |
| SftpWriteProperties.WriteCallShape | src/main/java/org/mule/extension/sftp/internal/command/SftpWriteCommand.java:45-67 | The call log is stats and mkdirs starting with the target's stat, followed by nothing, a refused open, or open, write and close. The last of these occurs exactly when the stream opened. |
| SftpWriteProperties.WriteCallOrder | src/main/java/org/mule/extension/sftp/internal/command/SftpWriteCommand.java:47-66 | The target is stated first. No stat, mkdir or second open follows the open. The log ends with open, write and close exactly when the stream opened, including on the copy-failure path. No close comes earlier. |
| SftpWriteProperties.WriteErrorsReported | src/main/java/org/mule/extension/sftp/internal/command/SftpWriteCommand.java:61-66 | Every open or copy failure is reported as one error naming the target. When the log ends with the close, the error is the copy failure exactly when the input stream threw, and there is no error otherwise. When the log ends with a refused open, the error is that refusal, wrapped again by the write. |
| SftpWriteProperties.WriteTouchesOnlyTarget | src/main/java/org/mule/extension/sftp/internal/command/SftpWriteCommand.java:45-67 | Nothing is removed and no entry other than the target changes. Anything new is the target or a folder above it, and folders are created only with folder creation on. |
| SftpWriteProperties.AppendTwice | src/test/java/org/mule/extension/sftp/SftpWriteTestCase.java:63-67 | Appending a and then b to a new file leaves a followed by b. |
| SftpRead.SftpReadCommand.constructor | src/main/java/org/mule/extension/sftp/internal/command/SftpReadCommand.java:37-39 | A read command is bound to the file system and the session it is given. |
| SftpRead.SftpReadCommand.Read | src/main/java/org/mule/extension/sftp/internal/command/SftpReadCommand.java:45-69 | The read matches its specification in result and lock registry. It issues exactly one stat and changes nothing on the server. |
| SftpReadProperties.ReadMissingIsNotFound | src/main/java/org/mule/extension/sftp/internal/command/SftpReadCommand.java:46 | Reading a missing path fails with NotFound and takes no lock. |
| SftpReadProperties.ReadFolderIsRefused | src/main/java/org/mule/extension/sftp/internal/command/SftpReadCommand.java:47-49 | Reading a folder fails with CannotReadDirectory, locked or not, and takes no lock. |
| SftpReadProperties.ReadSucceedsIff | src/main/java/org/mule/extension/sftp/internal/command/SftpReadCommand.java:45-65 | A read succeeds exactly when a file is there and unlocked. The registry gains the path exactly when a locked read succeeds. Reading a locked file fails with AlreadyLocked. |
| SftpReadProperties.ReadResultDescribesFile | src/main/java/org/mule/extension/sftp/internal/command/SftpReadCommand.java:61-65 | A successful read yields the file's bytes and regular-file attributes whose size is the payload length. Its stream holds the path's active lock exactly when the read was locked. |
| SftpReadProperties.SecondReadIsLockedOut | src/main/java/org/mule/extension/sftp/internal/command/SftpReadCommand.java:53-59 | After a locked read succeeds, a read of any operation path that resolves to the same file fails with AlreadyLocked, whether or not that read asks for a lock. |
| SftpReadProperties.CloseThenRelock | src/main/java/org/mule/extension/sftp/internal/command/SftpReadCommand.java:53-62 | Closing the stream of a successful read restores the registry it found, so a locked read of the file then succeeds. |
| SftpReadProperties.CreateNewThenRead | src/test/java/org/mule/extension/sftp/SftpWriteTestCase.java:130-137 | A file written with CREATE_NEW without error reads back as exactly the written bytes, with that size. |
| SftpReadProperties.UnlockedReadThenOverwrite | src/test/java/org/mule/extension/sftp/SftpWriteTestCase.java:118-127 | A file read without a lock keeps the lock registry unchanged, and its payload is the file's bytes at the time of the read. Overwriting the file meanwhile succeeds and leaves the new bytes. |

## Left out

- SftpCommand.Mkdirs: the call sequence is assumed, because `SftpCommand.java` is not part of this model. The folder itself has just been found missing, so it stats upward starting from that folder's parent until a prefix exists, possibly reaching the root. It then issues one mkdir per missing folder, outermost first. It stops at the first refused mkdir.
- SftpCommand.AssureParentFolderExists: the call sequence is assumed for the same reason. It issues one stat of the parent and does not stat the target again. It then either reports IllegalPath or runs mkdirs on the parent.
- SftpCommand.GetExistingFile: assumed to issue exactly one stat of the resolved path.

- Path resolution (`resolvePath` against the working directory) is a given function from operation paths to canonical paths. It is a constant of the session.
- Timestamps, symbolic links, file permissions and other attributes beyond name, path, size and kind.
- Media-type resolution, the `encoding` parameter and logging: they do not affect the command's result or the remote state.
- The `ConnectionException` path of `read` (`src/main/java/org/mule/extension/sftp/internal/command/SftpReadCommand.java:66-68`). `SftpInputStream.newInstance` is not part of this model, so the read is modelled as always producing its stream once the lock step succeeds.
- The input stream's lazy remote reads. A read's payload is the file's bytes at the time of the read, and `SftpFileSystem.Release` stands for the release its close performs.
- Concurrency. Calls are sequential, and the lock registry's atomicity is that of one method call.
- Failures of `close` on the output stream, and transport failures of stat and mkdir other than the refusals modelled here.
- The server's own rules are simplified. A folder is created only in a folder, where nothing is. A file opens for writing only in a folder, where no folder is.
- The other commands of the connector (list, delete, rename, copy, move) are not part of this core.
