/*
 * What a write promises, stated over WriteSpec: the CREATE_NEW refusal, the
 * missing-parent refusal, parent creation, the content each mode leaves, the
 * order of the remote calls, and that nothing but the target and its missing
 * folders changes.
 */
module SftpWriteProperties {
  import opened SftpModel
  import opened SftpConnection
  import opened SftpCommand
  import opened SftpWrite

  /** No existing prefix of p (its folders, or p itself) is a file. */
  ghost predicate NoFileOnPath(t: Tree, p: Path)
  {
    forall q :: q in t && IsPrefix(q, p) ==> t[q] == Dir
  }

  /** CREATE_NEW on an existing target is refused; no stream is opened and the tree is left as it was. */
  lemma CreateNewOnExistingIsRefused(t: Tree, p: Path, createParentDirectory: bool, content: Content)
    requires ValidTree(t) && p in t
    ensures var o := WriteSpec(t, p, CREATE_NEW, createParentDirectory, content);
      && o.error == Some(FileAlreadyExists(p, CREATE_NEW))
      && o.tree == t
      && o.calls == [StatCall(p)]
  {
  }

  /** A missing target whose folder is missing, with folder creation off, is refused in every mode and nothing is created. */
  lemma MissingParentIsIllegalPath(t: Tree, p: Path, mode: FileWriteMode, content: Content)
    requires ValidTree(t) && |p| > 0 && p !in t && Parent(p) !in t
    ensures var o := WriteSpec(t, p, mode, false, content);
      && o.error == Some(IllegalPath(p))
      && o.tree == t
      && forall c :: c in o.calls ==> !c.OpenCall?
  {
  }

  /**
   * With folder creation on, a missing target whose path crosses no file is
   * written in every mode: every folder above it exists afterwards and the
   * file holds exactly the content.
   */
  lemma CreatedParentsHoldNewFile(t: Tree, p: Path, mode: FileWriteMode, bytes: seq<byte>)
    requires ValidTree(t) && p !in t && NoFileOnPath(t, p)
    ensures var o := WriteSpec(t, p, mode, true, Content(bytes, false));
      && o.error == None
      && (forall i :: 0 <= i < |p| ==> p[..i] in o.tree && o.tree[p[..i]] == Dir)
      && p in o.tree && o.tree[p] == File(bytes)
  {
    var parent := Parent(p);
    var a := t;
    if parent !in t {
      assert parent[..0] == [] && parent[..|parent|] == parent;
      var d := DeepestExisting(t, parent);
      assert IsPrefix(parent[..d], p) by {
        assert p[..d] == parent[..d];
      }
      a := WithDirs(t, parent);
      WithDirsContents(t, parent);
      assert IsPrefix(parent, parent);
    }
    assert parent in a && a[parent] == Dir by {
      assert IsPrefix(parent, p);
    }
    forall i | 0 <= i < |p|
      ensures p[..i] in a && a[p[..i]] == Dir
    {
      assert p[..i] == parent[..i];
      if parent !in t {
        assert IsPrefix(p[..i], parent);
        assert IsPrefix(p[..i], p);
      } else {
        AncestorsExist(t, parent, i);
        assert IsPrefix(p[..i], p);
      }
    }
    assert p !in a by {
      if parent !in t {
        assert !IsPrefix(p, parent);
      }
    }
    assert [] + bytes == bytes;
  }

  /** A missing target inside an existing folder holds exactly the written bytes, in every mode. */
  lemma NewFileHoldsContent(t: Tree, p: Path, mode: FileWriteMode, createParentDirectory: bool, bytes: seq<byte>)
    requires ValidTree(t) && |p| > 0 && p !in t && Parent(p) in t && t[Parent(p)] == Dir
    ensures var o := WriteSpec(t, p, mode, createParentDirectory, Content(bytes, false));
      o.error == None && o.tree == t[p := File(bytes)]
  {
    assert [] + bytes == bytes;
  }

  /** On an existing file APPEND leaves the old bytes followed by the new ones, and OVERWRITE just the new ones. */
  lemma ExistingFileByMode(t: Tree, p: Path, mode: FileWriteMode, createParentDirectory: bool, bytes: seq<byte>)
    requires ValidTree(t) && p in t && t[p].File? && mode != CREATE_NEW
    ensures var o := WriteSpec(t, p, mode, createParentDirectory, Content(bytes, false));
      && o.error == None
      && o.tree == t[p := File(if mode == APPEND then t[p].content + bytes else bytes)]
  {
    assert p != [] && [] + bytes == bytes;
  }

  /** A folder is never written: CREATE_NEW is refused as existing, the other modes fail to open; nothing changes. */
  lemma FolderIsNeverWritten(t: Tree, p: Path, mode: FileWriteMode, createParentDirectory: bool, content: Content)
    requires ValidTree(t) && p in t && t[p] == Dir
    ensures var o := WriteSpec(t, p, mode, createParentDirectory, content);
      && o.error == (if mode == CREATE_NEW then Some(FileAlreadyExists(p, mode)) else Some(Wrapped(p, Caught(Wrapped(p, OpenFailed(mode))))))
      && o.tree == t
  {
  }

  /** A missing target whose path crosses a file cannot be written, whatever the flags; nothing changes. */
  lemma FileOnPathBlocksWrite(t: Tree, p: Path, q: Path, mode: FileWriteMode, createParentDirectory: bool, content: Content)
    requires ValidTree(t) && p !in t && q in t && IsPrefix(q, p) && t[q].File?
    ensures var o := WriteSpec(t, p, mode, createParentDirectory, content);
      o.error.Some? && o.tree == t
  {
    var parent := Parent(p);
    assert |q| < |p| by {
      assert p[..|p|] == p;
    }
    assert IsPrefix(q, parent) by {
      assert parent[..|q|] == p[..|q|];
    }
    if parent in t {
      AncestorsExist(t, parent, |q|);
      assert parent[..|parent|] == parent;
    } else if createParentDirectory {
      var d := DeepestExisting(t, parent);
      assert parent[..0] == [] && parent[..|parent|] == parent;
      assert |q| <= d;
      AncestorsExist(t, parent[..d], |q|);
      assert parent[..d][..|q|] == q;
    }
  }

  /** A write that succeeds, or whose copy fails, has opened the target's stream. */
  ghost predicate StreamOpened(o: Outcome, p: Path)
  {
    o.error == None || o.error == Some(Wrapped(p, CopyFailed))
  }

  /** Calls that only look at or create folders: stats and mkdirs. */
  ghost predicate OnlyProbes(cs: seq<RemoteCall>)
  {
    forall i :: 0 <= i < |cs| ==> cs[i].StatCall? || cs[i].MkdirCall?
  }

  /** mkdirs issues only stats and mkdirs. */
  lemma MkdirsOnlyProbes(t: Tree, dir: Path)
    requires ValidTree(t) && dir !in t
    ensures OnlyProbes(MkdirsSpec(t, dir).calls)
  {
  }

  /**
   * The call log of a write is a run of stats and mkdirs starting with the stat
   * of the target, then either nothing, a refused open, or an open, a write
   * and a close; the last exactly when the stream opened.
   */
  lemma {:induction false} WriteCallShape(t: Tree, p: Path, mode: FileWriteMode, createParentDirectory: bool, content: Content)
    returns (pre: seq<RemoteCall>)
    requires ValidTree(t)
    ensures var o := WriteSpec(t, p, mode, createParentDirectory, content);
      && |pre| > 0 && pre[0] == StatCall(p) && OnlyProbes(pre)
      && ((!StreamOpened(o, p) && (o.calls == pre || o.calls == pre + [OpenCall(p, mode)]))
          || (StreamOpened(o, p) && o.calls == pre + [OpenCall(p, mode), WriteCall(content.bytes), CloseCall(p)]))
  {
    var o := WriteSpec(t, p, mode, createParentDirectory, content);
    pre := [StatCall(p)];
    var base := t;
    if p !in t {
      var a := AssureParentSpec(t, p, createParentDirectory);
      if Parent(p) !in t && createParentDirectory {
        MkdirsOnlyProbes(t, Parent(p));
      }
      pre := [StatCall(p)] + a.calls;
      base := a.tree;
      if a.error.Some? {
        return;
      }
    } else if mode == CREATE_NEW {
      return;
    }
    var s := OpenAndCopy(base, p, mode, content);
    assert o.calls == pre + s.calls;
  }

  /**
   * The order of the remote calls: the target is probed first; every probe and
   * mkdir comes before the open; a stream is opened at most once and, when it
   * opened, the call log ends with its open, write and close, on the
   * copy-failure path too; no close comes before the last call.
   */
  lemma WriteCallOrder(t: Tree, p: Path, mode: FileWriteMode, createParentDirectory: bool, content: Content)
    requires ValidTree(t)
    ensures var o := WriteSpec(t, p, mode, createParentDirectory, content);
      && |o.calls| > 0 && o.calls[0] == StatCall(p)
      && (forall i, j :: 0 <= i < j < |o.calls| && o.calls[i].OpenCall? ==>
            !o.calls[j].StatCall? && !o.calls[j].MkdirCall? && !o.calls[j].OpenCall?)
      && (StreamOpened(o, p) <==> |o.calls| >= 4 && o.calls[|o.calls| - 3] == OpenCall(p, mode)
                                  && o.calls[|o.calls| - 1] == CloseCall(p))
      && (forall i :: 0 <= i < |o.calls| - 1 ==> !o.calls[i].CloseCall?)
  {
    var pre := WriteCallShape(t, p, mode, createParentDirectory, content);
    var o := WriteSpec(t, p, mode, createParentDirectory, content);
    assert forall i :: 0 <= i < |pre| ==> o.calls[i] == pre[i];
  }

  /**
   * Every open or copy failure is reported as one error naming the target:
   * when the log ends with the close, the error is the copy failure exactly
   * when the caller's input stream threw, and none otherwise; when it ends with
   * a refused open, the error is that refusal, wrapped again by the write.
   */
  lemma WriteErrorsReported(t: Tree, p: Path, mode: FileWriteMode, createParentDirectory: bool, content: Content)
    requires ValidTree(t)
    ensures var o := WriteSpec(t, p, mode, createParentDirectory, content);
      && |o.calls| > 0
      && (o.calls[|o.calls| - 1] == CloseCall(p) ==>
            o.error == (if content.fails then Some(Wrapped(p, CopyFailed)) else None))
      && (o.calls[|o.calls| - 1] == OpenCall(p, mode) ==>
            o.error == Some(Wrapped(p, Caught(Wrapped(p, OpenFailed(mode))))))
  {
    var pre := WriteCallShape(t, p, mode, createParentDirectory, content);
  }

  /**
   * Nothing but the target and its missing folders changes: every other entry
   * keeps its value, nothing is removed, and what appears is the target or a
   * folder above it, created only when folder creation is on.
   */
  lemma WriteTouchesOnlyTarget(t: Tree, p: Path, mode: FileWriteMode, createParentDirectory: bool, content: Content)
    requires ValidTree(t)
    ensures var o := WriteSpec(t, p, mode, createParentDirectory, content);
      && (forall q :: q in t ==> q in o.tree)
      && (forall q :: q in t && q != p ==> o.tree[q] == t[q])
      && (forall q :: q in o.tree && q !in t && q != p ==>
            createParentDirectory && IsPrefix(q, p) && o.tree[q] == Dir)
  {
    if p !in t {
      var parent := Parent(p);
      if parent !in t && createParentDirectory {
        assert parent[..0] == [] && parent[..|parent|] == parent;
        WithDirsContents(t, parent);
        forall q | IsPrefix(q, parent)
          ensures IsPrefix(q, p)
        {
          assert p[..|q|] == parent[..|q|];
        }
      }
    }
  }

  /** Appending a then b to a missing file in an existing folder leaves a followed by b. */
  lemma AppendTwice(t: Tree, p: Path, createParentDirectory: bool, a: seq<byte>, b: seq<byte>)
    requires ValidTree(t) && |p| > 0 && p !in t && Parent(p) in t && t[Parent(p)] == Dir
    ensures var o1 := WriteSpec(t, p, APPEND, createParentDirectory, Content(a, false));
      && ValidTree(o1.tree)
      && var o2 := WriteSpec(o1.tree, p, APPEND, createParentDirectory, Content(b, false));
      o2.error == None && o2.tree[p] == File(a + b)
  {
    NewFileHoldsContent(t, p, APPEND, createParentDirectory, a);
    var t1 := t[p := File(a)];
    WriteKeepsTreeValid(t, p, APPEND, createParentDirectory, Content(a, false));
    ExistingFileByMode(t1, p, APPEND, createParentDirectory, b);
  }
}
