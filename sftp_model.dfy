/*
 * The abstract state the SFTP command layer works against: the remote tree
 * seen through one session, the attributes a stat returns, the write modes,
 * the error taxonomy, the advisory locks and the log of primitive remote calls.
 */
module SftpModel {

  newtype byte = b: int | 0 <= b < 256

  /** A canonical absolute remote path, as its segments below the root; the root is []. */
  type Path = seq<string>

  datatype Option<+T> = None | Some(value: T)

  datatype Result<+T, +E> = Success(value: T) | Failure(error: E)

  /** What the server holds at a path. */
  datatype Entry = Dir | File(content: seq<byte>)

  type Tree = map<Path, Entry>

  /** The stat snapshot of one path (SftpFileAttributes). */
  datatype FileAttributes = FileAttributes(
    name: string,
    path: Path,
    size: nat,
    isDirectory: bool,
    isRegularFile: bool)

  datatype FileWriteMode = OVERWRITE | APPEND | CREATE_NEW

  /**
   * The underlying failure a wrapped error carries: a refused open, a copy that
   * threw, a refused mkdir, or an error of the command's own that an enclosing
   * catch wrapped once more.
   */
  datatype Cause = OpenFailed(mode: FileWriteMode) | CopyFailed | MkdirFailed | Caught(inner: FileError)

  /** The error kinds a command reports, each with the canonical path it concerns. */
  datatype FileError =
    | NotFound(path: Path)
    | IllegalPath(path: Path)
    | FileAlreadyExists(path: Path, mode: FileWriteMode)
    | CannotReadDirectory(path: Path)
    | AlreadyLocked(path: Path)
    | Wrapped(path: Path, cause: Cause)

  /** One primitive call issued on the remote session. */
  datatype RemoteCall =
    | StatCall(path: Path)
    | MkdirCall(path: Path)
    | OpenCall(path: Path, mode: FileWriteMode)
    | WriteCall(bytes: seq<byte>)
    | CloseCall(path: Path)

  /** An active advisory lock on a canonical path, or the no-op lock of an unlocked read. */
  datatype PathLock = NullPathLock | ActivePathLock(path: Path)

  /** The bytes a caller's input stream yields, and whether it then throws instead of ending. */
  datatype Content = Content(bytes: seq<byte>, fails: bool)

  /** What a command step leaves behind: its error if any, the new tree and the calls it issued. */
  datatype Outcome = Outcome(error: Option<FileError>, tree: Tree, calls: seq<RemoteCall>)

  function Parent(p: Path): (parent: Path)
    requires |p| > 0
  {
    p[..|p| - 1]
  }

  function Name(p: Path): (name: string)
  {
    if p == [] then "" else p[|p| - 1]
  }

  /** A tree the server can hold: the root is a folder and every other path sits in a folder. */
  ghost predicate ValidTree(t: Tree)
  {
    && [] in t && t[[]] == Dir
    && forall q {:trigger Parent(q)} :: q in t && q != [] ==> Parent(q) in t && t[Parent(q)] == Dir
  }

  /** Stat: the attributes of p, or None when nothing is there. */
  function Attributes(t: Tree, p: Path): (a: Option<FileAttributes>)
    ensures a.Some? <==> p in t
    ensures a.Some? ==> a.value.path == p && a.value.name == Name(p)
    ensures a.Some? ==> (a.value.isDirectory <==> t[p] == Dir) && a.value.isRegularFile == !a.value.isDirectory
    ensures a.Some? && t[p].File? ==> a.value.size == |t[p].content|
  {
    if p !in t then None
    else match t[p]
      case Dir => Some(FileAttributes(Name(p), p, 0, true, false))
      case File(c) => Some(FileAttributes(Name(p), p, |c|, false, true))
  }

  /** Every folder above an existing path exists, and is a folder. */
  lemma {:induction false} AncestorsExist(t: Tree, q: Path, i: nat)
    requires ValidTree(t) && q in t && i <= |q|
    ensures q[..i] in t
    ensures i < |q| ==> t[q[..i]] == Dir
    decreases |q| - i
  {
    if i < |q| {
      assert Parent(q) in t && t[Parent(q)] == Dir;
      if i < |q| - 1 {
        AncestorsExist(t, Parent(q), i);
        assert Parent(q)[..i] == q[..i];
      } else {
        assert q[..i] == Parent(q);
      }
    } else {
      assert q[..i] == q;
    }
  }

  /**
   * The length of the longest prefix of dir that exists (0 for the root when
   * nothing below it does): what walking up from dir until a stat succeeds finds.
   */
  function DeepestExisting(t: Tree, dir: Path): (d: nat)
    ensures d <= |dir|
    ensures d == 0 || dir[..d] in t
    ensures forall i :: d < i <= |dir| ==> dir[..i] !in t
  {
    if dir == [] || dir in t then
      assert dir[..|dir|] == dir;
      |dir|
    else
      var d := DeepestExisting(t, Parent(dir));
      assert forall i :: 0 <= i <= |Parent(dir)| ==> Parent(dir)[..i] == dir[..i];
      assert dir[..|dir|] == dir;
      d
  }

  /** The tree with every missing prefix of dir added as a folder, outermost first. */
  function WithDirs(t: Tree, dir: Path): (t': Tree)
  {
    if dir == [] then (if [] in t then t else t[[] := Dir])
    else
      var above := WithDirs(t, Parent(dir));
      if dir in above then above else above[dir := Dir]
  }

  /** q is a prefix of p (possibly p itself). */
  predicate IsPrefix(q: Path, p: Path)
  {
    |q| <= |p| && q == p[..|q|]
  }

  /** WithDirs keeps every existing entry and adds folders exactly at the missing prefixes of dir. */
  lemma {:induction false} WithDirsContents(t: Tree, dir: Path)
    ensures forall q :: q in WithDirs(t, dir) <==> q in t || IsPrefix(q, dir)
    ensures forall q :: q in t ==> WithDirs(t, dir)[q] == t[q]
    ensures forall q :: q in WithDirs(t, dir) && q !in t ==> WithDirs(t, dir)[q] == Dir
  {
    if dir != [] {
      WithDirsContents(t, Parent(dir));
      forall q
        ensures IsPrefix(q, dir) <==> IsPrefix(q, Parent(dir)) || q == dir
      {
        if |q| < |dir| {
          assert Parent(dir)[..|q|] == dir[..|q|];
        }
      }
    }
  }

  /** Adding the missing folders of a path whose every prefix exists changes nothing. */
  lemma {:induction false} WithDirsOfExisting(t: Tree, q: Path)
    requires forall j :: 0 <= j <= |q| ==> q[..j] in t
    ensures WithDirs(t, q) == t
  {
    assert q[..|q|] == q && q[..0] == [];
    if q != [] {
      forall j | 0 <= j <= |Parent(q)|
        ensures Parent(q)[..j] in t
      {
        assert Parent(q)[..j] == q[..j];
      }
      WithDirsOfExisting(t, Parent(q));
    }
  }

  /** Putting a file or folder where nothing or a file stood, inside a folder, keeps the tree well formed. */
  lemma PlaceKeepsValid(t: Tree, p: Path, e: Entry)
    requires ValidTree(t) && |p| > 0 && Parent(p) in t && t[Parent(p)] == Dir
    requires p !in t || t[p].File?
    ensures ValidTree(t[p := e])
  {
    var t' := t[p := e];
    forall q | q in t' && q != []
      ensures Parent(q) in t' && t'[Parent(q)] == Dir
    {
      if q != p {
        assert q in t;
      }
    }
  }

  /** Adding the missing folders of dir keeps the tree well formed when no existing prefix of dir is a file. */
  lemma {:induction false} WithDirsValid(t: Tree, dir: Path)
    requires ValidTree(t)
    requires forall q :: q in t && IsPrefix(q, dir) ==> t[q] == Dir
    ensures ValidTree(WithDirs(t, dir))
  {
    if dir != [] {
      var above := WithDirs(t, Parent(dir));
      forall q | q in t && IsPrefix(q, Parent(dir))
        ensures t[q] == Dir
      {
        assert Parent(dir)[..|q|] == dir[..|q|];
      }
      WithDirsValid(t, Parent(dir));
      WithDirsContents(t, Parent(dir));
      assert IsPrefix(Parent(dir), Parent(dir));
      assert IsPrefix(Parent(dir), dir);
      if dir !in above {
        PlaceKeepsValid(above, dir, Dir);
      }
    }
  }

  /** Sequence concatenation regroups (a step the call-log proofs need spelled out). */
  lemma AppendAssoc<T>(a: seq<T>, b: seq<T>, c: seq<T>)
    ensures a + b + c == a + (b + c)
  {
  }

  /** The registry after an advisory lock is released; releasing a null lock changes nothing. */
  function Released(locks: set<Path>, l: PathLock): (r: set<Path>)
    ensures l.NullPathLock? ==> r == locks
    ensures l.ActivePathLock? ==> l.path !in r && forall q :: q in locks && q != l.path ==> q in r
    ensures r <= locks
  {
    match l
    case NullPathLock => locks
    case ActivePathLock(p) => locks - {p}
  }
}
