/** SaverThread.run of threads.py (threads.py:341-352): a flush order names a
    tree; the saver dumps that tree to "<tree>.tmp" in the store folder,
    moves it over "<tree>.tree", and answers with the very frames it was
    sent, whether or not the flush succeeded. */
module SaverThread {
  import opened Wire

  const TmpSuffix := ".tmp"
  const TreeSuffix := ".tree"

  /** The scratch file a tree is first dumped to (threads.py:344). */
  function TmpPath(folder: string, tree: TreeName): string
  {
    PathJoin(folder, tree + TmpSuffix)
  }

  /** The file a flushed tree ends up in (threads.py:347). */
  function TreePath(folder: string, tree: TreeName): string
  {
    PathJoin(folder, tree + TreeSuffix)
  }

  /** The two file-system steps of a flush. */
  datatype FileOp = Dump(tree: TreeName, path: string) | Move(source: string, target: string)

  /** One flush order (threads.py:343-352). The store's tree names, and
      whether the dump and the move succeed, are inputs standing for the
      file system; a missing tree makes the lookup raise before anything is
      written. Every failure is swallowed by the handler, so the reply is
      always the order itself. */
  method Flush(folder: string, trees: set<TreeName>, job: FlushJob, dumpOk: bool, moveOk: bool)
    returns (ops: seq<FileOp>, ok: bool, reply: FlushJob)
    ensures reply == job
    ensures ok <==> job.tree in trees && dumpOk && moveOk
    ensures job.tree !in trees ==> ops == []
    ensures job.tree in trees ==> |ops| >= 1 && ops[0] == Dump(job.tree, TmpPath(folder, job.tree))
    ensures job.tree in trees && dumpOk ==> ops == [Dump(job.tree, TmpPath(folder, job.tree)), Move(TmpPath(folder, job.tree), TreePath(folder, job.tree))]
    ensures job.tree in trees && !dumpOk ==> |ops| == 1
  {
    var treename := job.tree;
    var filename := PathJoin(folder, treename + TmpSuffix);
    ops, ok := [], false;
    if treename in trees {
      ops := [Dump(treename, filename)];
      if dumpOk {
        var newname := PathJoin(folder, treename + TreeSuffix);
        ops := ops + [Move(filename, newname)];
        ok := moveOk;
      }
    }
    reply := job;
  }

  /** The scratch file is never the final file, so a failed flush cannot
      clobber the last good copy by the dump alone. */
  lemma ScratchIsNotFinal(folder: string, tree: TreeName)
    ensures TmpPath(folder, tree) != TreePath(folder, tree)
  {
    assert |TreePath(folder, tree)| == |TmpPath(folder, tree)| + 1;
  }

  /** Different relative tree names are flushed to different files. */
  lemma {:induction false} TreePathInjective(folder: string, a: TreeName, b: TreeName)
    requires (|a| == 0 || a[0] != '/') && (|b| == 0 || b[0] != '/')
    requires TreePath(folder, a) == TreePath(folder, b)
    ensures a == b
  {
    var x, y := a + TreeSuffix, b + TreeSuffix;
    assert x[0] != '/' && y[0] != '/' by {
      if |a| == 0 { assert x[0] == '.'; } else { assert x[0] == a[0]; }
      if |b| == 0 { assert y[0] == '.'; } else { assert y[0] == b[0]; }
    }
    var p := PathJoin(folder, x);
    var pre := |p| - |x|;
    assert p == (if folder == "" || folder[|folder| - 1] == '/' then folder else folder + "/") + x;
    assert p == (if folder == "" || folder[|folder| - 1] == '/' then folder else folder + "/") + y;
    assert |x| == |y|;
    assert x == p[pre..] == y;
    assert a == x[..|a|] == y[..|b|] == b;
  }
}
