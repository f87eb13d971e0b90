/*
 * The helpers every SFTP command shares (the SftpCommand base class): fetching
 * the attributes of a path that must exist, and making sure the folder a new
 * file goes into exists, creating the missing folders when that is allowed.
 */
module SftpCommand {
  import opened SftpModel
  import opened SftpConnection

  /** The stats of walking up from just above dir down to its deepest existing prefix dir[..d]. */
  function ProbeUp(dir: Path, d: nat): (r: seq<RemoteCall>)
    requires d < |dir|
    ensures |r| == |dir| - d
  {
    seq(|dir| - d, j requires 0 <= j < |dir| - d => StatCall(dir[..|dir| - 1 - j]))
  }

  /** The folders created below dir[..d], outermost first. */
  function CreateDown(dir: Path, d: nat): (r: seq<RemoteCall>)
    requires d <= |dir|
    ensures |r| == |dir| - d
  {
    seq(|dir| - d, j requires 0 <= j < |dir| - d => MkdirCall(dir[..d + 1 + j]))
  }

  /**
   * mkdirs of a missing folder: find the deepest existing prefix, then create
   * every folder below it; the first mkdir fails when that prefix is a file.
   */
  function MkdirsSpec(t: Tree, dir: Path): (o: Outcome)
    requires ValidTree(t) && dir !in t
  {
    var d := DeepestExisting(t, dir);
    assert dir[..0] == [] && dir[..|dir|] == dir;
    if t[dir[..d]].File? then
      Outcome(Some(Wrapped(dir[..d + 1], MkdirFailed)), t, ProbeUp(dir, d) + [MkdirCall(dir[..d + 1])])
    else
      Outcome(None, WithDirs(t, dir), ProbeUp(dir, d) + CreateDown(dir, d))
  }

  /**
   * assureParentFolderExists for a missing target p: nothing to do when the
   * parent exists; IllegalPath when it does not and creation is not allowed;
   * otherwise mkdirs of the parent.
   */
  function AssureParentSpec(t: Tree, p: Path, createParentDirectory: bool): (o: Outcome)
    requires ValidTree(t) && p !in t
  {
    var parent := Parent(p);
    if parent in t then
      Outcome(None, t, [StatCall(parent)])
    else if !createParentDirectory then
      Outcome(Some(IllegalPath(p)), t, [StatCall(parent)])
    else
      var m := MkdirsSpec(t, parent);
      Outcome(m.error, m.tree, [StatCall(parent)] + m.calls)
  }

  lemma ProbeUpStep(dir: Path, k: nat)
    requires 0 < k < |dir|
    ensures ProbeUp(dir, k - 1) == ProbeUp(dir, k) + [StatCall(dir[..k - 1])]
  {
  }

  lemma CreateDownPrefix(dir: Path, d: nat, n: nat)
    requires d < n <= |dir|
    ensures CreateDown(dir, d)[..n - d] == CreateDown(dir, d)[..n - d - 1] + [MkdirCall(dir[..n])]
  {
  }

  /**
   * While mkdirs creates the folders below the deepest existing prefix dir[..k],
   * the next mkdir succeeds unless it is the first one and dir[..k] is a file;
   * when it succeeds it extends the folders created so far by one.
   */
  lemma NextMkdir(t: Tree, dir: Path, k: nat, i: nat)
    requires k < i <= |dir| && dir[..k] in t
    requires forall j :: k < j <= |dir| ==> dir[..j] !in t
    ensures CanMkdir(WithDirs(t, dir[..i - 1]), dir[..i]) <==> (i > k + 1 || t[dir[..k]] == Dir)
    ensures CanMkdir(WithDirs(t, dir[..i - 1]), dir[..i]) ==>
      WithDirs(t, dir[..i - 1])[dir[..i] := Dir] == WithDirs(t, dir[..i])
  {
    var shorter, next := dir[..i - 1], dir[..i];
    WithDirsContents(t, shorter);
    assert next !in t;
    assert !IsPrefix(next, shorter);
    assert Parent(next) == shorter;
    assert IsPrefix(shorter, shorter);
  }

  /** SftpCommand.getExistingFile: stat the resolved path and fail with NotFound when nothing is there. */
  method GetExistingFile(client: SftpClient, filePath: string) returns (r: Result<FileAttributes, FileError>)
    modifies client`calls
    ensures var p := client.resolve(filePath);
      r == (if p in client.files then Success(Attributes(client.files, p).value) else Failure(NotFound(p)))
    ensures client.calls == old(client.calls) + [StatCall(client.resolve(filePath))]
  {
    var p := client.resolve(filePath);
    var a := client.GetAttributes(p);
    if a.None? {
      r := Failure(NotFound(p));
    } else {
      r := Success(a.value);
    }
  }

  /** The walk up of mkdirs: stat upwards from just above dir until a prefix exists. */
  method FindDeepestExisting(client: SftpClient, dir: Path) returns (k: nat)
    requires [] in client.files && dir !in client.files
    modifies client`calls
    ensures k == DeepestExisting(client.files, dir) && k < |dir|
    ensures client.calls == old(client.calls) + ProbeUp(dir, k)
  {
    ghost var t := client.files;
    assert dir[..0] == [] && dir[..|dir|] == dir;
    k := |dir| - 1;
    var a := client.GetAttributes(dir[..k]);
    while a.None?
      invariant 0 <= k < |dir|
      invariant a == Attributes(t, dir[..k])
      invariant forall i :: k < i <= |dir| ==> dir[..i] !in t
      invariant client.calls == old(client.calls) + ProbeUp(dir, k)
      decreases k
    {
      ProbeUpStep(dir, k);
      k := k - 1;
      a := client.GetAttributes(dir[..k]);
    }
  }

  /** The walk down of mkdirs: create every folder of dir below its deepest existing prefix dir[..k]. */
  method CreateBelow(client: SftpClient, dir: Path, k: nat) returns (err: Option<FileError>)
    requires k < |dir|
    requires forall j :: 0 <= j <= k ==> dir[..j] in client.files
    requires forall j :: k < j <= |dir| ==> dir[..j] !in client.files
    modifies client
    ensures old(client.files)[dir[..k]] == Dir ==>
      err == None && client.files == WithDirs(old(client.files), dir)
      && client.calls == old(client.calls) + CreateDown(dir, k)
    ensures old(client.files)[dir[..k]].File? ==>
      err == Some(Wrapped(dir[..k + 1], MkdirFailed)) && client.files == old(client.files)
      && client.calls == old(client.calls) + [MkdirCall(dir[..k + 1])]
  {
    ghost var t := client.files;
    forall j | 0 <= j <= k
      ensures dir[..k][..j] in t
    {
      assert dir[..k][..j] == dir[..j];
    }
    WithDirsOfExisting(t, dir[..k]);
    assert dir[..k][..k] == dir[..k];
    var i := k + 1;
    while i <= |dir|
      invariant k < i <= |dir| + 1
      invariant client.files == WithDirs(t, dir[..i - 1])
      invariant client.calls == old(client.calls) + CreateDown(dir, k)[..i - k - 1]
      invariant i > k + 1 ==> t[dir[..k]] == Dir
    {
      NextMkdir(t, dir, k, i);
      var ok := client.Mkdir(dir[..i]);
      CreateDownPrefix(dir, k, i);
      if !ok {
        assert i == k + 1 && client.files == t;
        return Some(Wrapped(dir[..i], MkdirFailed));
      }
      i := i + 1;
    }
    assert dir[..i - 1] == dir;
    err := None;
  }

  /** SftpCommand.mkdirs for a folder that does not exist. */
  method Mkdirs(client: SftpClient, dir: Path) returns (err: Option<FileError>)
    requires client.Valid() && dir !in client.files
    modifies client
    ensures client.Valid()
    ensures var o := MkdirsSpec(old(client.files), dir);
      err == o.error && client.files == o.tree && client.calls == old(client.calls) + o.calls
  {
    ghost var t := client.files;
    var k := FindDeepestExisting(client, dir);
    assert dir[..0] == [];
    forall j | 0 <= j <= k
      ensures dir[..j] in t
    {
      AncestorsExist(t, dir[..k], j);
      assert dir[..k][..j] == dir[..j];
    }
    err := CreateBelow(client, dir, k);
    if t[dir[..k]] == Dir {
      forall q | q in t && IsPrefix(q, dir)
        ensures t[q] == Dir
      {
        if |q| < k {
          AncestorsExist(t, dir[..k], |q|);
          assert dir[..k][..|q|] == q;
        }
      }
      WithDirsValid(t, dir);
    }
  }

  /** SftpCommand.assureParentFolderExists, called only when the target p does not exist. */
  method AssureParentFolderExists(client: SftpClient, p: Path, createParentDirectory: bool)
    returns (err: Option<FileError>)
    requires client.Valid() && p !in client.files
    modifies client
    ensures client.Valid()
    ensures var o := AssureParentSpec(old(client.files), p, createParentDirectory);
      err == o.error && client.files == o.tree && client.calls == old(client.calls) + o.calls
  {
    var parent := Parent(p);
    var a := client.GetAttributes(parent);
    if a.Some? {
      err := None;
    } else if !createParentDirectory {
      err := Some(IllegalPath(p));
    } else {
      err := Mkdirs(client, parent);
    }
  }
}
