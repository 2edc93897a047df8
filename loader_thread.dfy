/** LoaderThread.run of threads.py (threads.py:371-398): at start-up every
    "*.tree" file of the store folder is turned into a LOAD request for the
    tree it holds, and the loader then counts the answers until every load
    is accounted for. */
module LoaderThread {
  import opened Wire
  import SaverThread
  import TreeClient

  /** The timeout frame sent with every LOAD request, in milliseconds. */
  const LoadTimeoutMs := "1000000"

  /** One request as sent to the client port: statement and timeout frame. */
  datatype LoadRequest = LoadRequest(statement: string, timeoutMs: string)

  predicate EndsWith(s: string, suffix: string)
  {
    |suffix| <= |s| && s[|s| - |suffix|..] == suffix
  }

  predicate OccursAt(s: string, pat: string, i: nat)
  {
    i + |pat| <= |s| && s[i..i + |pat|] == pat
  }

  /** The first position at or after start where pat occurs in s, or |s|. */
  function FirstOccurrence(s: string, pat: string, start: nat): (r: nat)
    requires start <= |s|
    ensures start <= r <= |s|
    ensures r < |s| ==> OccursAt(s, pat, r)
    ensures forall i :: start <= i < r ==> !OccursAt(s, pat, i)
    decreases |s| - start
  {
    if start == |s| then |s|
    else if OccursAt(s, pat, start) then start
    else FirstOccurrence(s, pat, start + 1)
  }

  /** file.split('.tree')[0]: the part before the first ".tree". */
  function TreeNameOf(file: string): TreeName
  {
    file[..FirstOccurrence(file, SaverThread.TreeSuffix, 0)]
  }

  /** The request for one store file (threads.py:379-381). */
  function LoadFor(folder: string, file: string): LoadRequest
  {
    LoadRequest(JoinSpace(["LOAD", TreeNameOf(file), PathJoin(folder, file)]), LoadTimeoutMs)
  }

  /** The requests for a folder listing, in listing order: one per file
      whose name ends in ".tree". */
  function LoadsFor(folder: string, files: seq<string>): (r: seq<LoadRequest>)
    ensures |r| <= |files|
  {
    if |files| == 0 then []
    else
      var last := files[|files| - 1];
      LoadsFor(folder, files[..|files| - 1]) + (if EndsWith(last, SaverThread.TreeSuffix) then [LoadFor(folder, last)] else [])
  }

  /** The number of files in a listing whose name ends in ".tree". */
  function TreeFiles(files: seq<string>): nat
  {
    if |files| == 0 then 0
    else TreeFiles(files[..|files| - 1]) + (if EndsWith(files[|files| - 1], SaverThread.TreeSuffix) then 1 else 0)
  }

  /** The sending loop (threads.py:377-383): the requests sent and the
      count i of them. */
  method Issue(folder: string, files: seq<string>) returns (sent: seq<LoadRequest>, issued: nat)
    ensures sent == LoadsFor(folder, files)
    ensures issued == |sent| == TreeFiles(files)
  {
    sent, issued := [], 0;
    var k := 0;
    while k < |files|
      invariant 0 <= k <= |files|
      invariant sent == LoadsFor(folder, files[..k])
      invariant issued == |sent| == TreeFiles(files[..k])
    {
      assert files[..k + 1][..k] == files[..k];
      var file := files[k];
      if EndsWith(file, SaverThread.TreeSuffix) {
        var treename := TreeNameOf(file);
        sent := sent + [LoadRequest(JoinSpace(["LOAD", treename, PathJoin(folder, file)]), LoadTimeoutMs)];
        issued := issued + 1;
      }
      k := k + 1;
    }
    assert files[..k] == files;
  }

  /** Every request names a tree file of the listing and asks for the
      tree before its first ".tree", at that file's path. */
  lemma {:induction false} LoadsAreForTreeFiles(folder: string, files: seq<string>, n: nat)
    requires n < |LoadsFor(folder, files)|
    ensures exists f :: f in files && EndsWith(f, SaverThread.TreeSuffix) && LoadsFor(folder, files)[n] == LoadFor(folder, f)
  {
    var init := files[..|files| - 1];
    var last := files[|files| - 1];
    if n < |LoadsFor(folder, init)| {
      LoadsAreForTreeFiles(folder, init, n);
      var f :| f in init && EndsWith(f, SaverThread.TreeSuffix) && LoadsFor(folder, init)[n] == LoadFor(folder, f);
      assert f in files;
    } else {
      assert EndsWith(last, SaverThread.TreeSuffix);
      assert LoadsFor(folder, files)[n] == LoadFor(folder, last);
      assert last in files;
    }
  }

  /** A loader request is the statement the client library's loadTree
      builds for the same tree and path. */
  lemma LoadMatchesClient(folder: string, file: string)
    ensures LoadFor(folder, file).statement == TreeClient.LoadTree(TreeNameOf(file), PathJoin(folder, file))
  {
  }

  /** ".tree" has no proper border, so it cannot occur across the end of a
      name it is appended to. */
  lemma NoOccurrenceAcrossSuffix(t: string, i: nat)
    requires |t| - 4 <= i < |t|
    ensures !OccursAt(t + SaverThread.TreeSuffix, SaverThread.TreeSuffix, i)
  {
    var s := t + SaverThread.TreeSuffix;
    assert s[|t|] == '.';
    assert SaverThread.TreeSuffix[|t| - i] != '.';
    if i + 5 <= |s| {
      assert s[i..i + 5][|t| - i] == s[|t|];
    }
  }

  /** A tree the saver flushed is loaded back under its own name, from the
      path the saver wrote, provided ".tree" does not occur in the name. */
  lemma {:induction false} SavedTreeLoadsBack(folder: string, t: TreeName)
    requires forall i :: 0 <= i <= |t| ==> !OccursAt(t, SaverThread.TreeSuffix, i)
    ensures TreeNameOf(t + SaverThread.TreeSuffix) == t
    ensures LoadsFor(folder, [t + SaverThread.TreeSuffix]) ==
            [LoadRequest(JoinSpace(["LOAD", t, SaverThread.TreePath(folder, t)]), LoadTimeoutMs)]
  {
    var s := t + SaverThread.TreeSuffix;
    forall i | 0 <= i < |t|
      ensures !OccursAt(s, SaverThread.TreeSuffix, i)
    {
      if i + 5 <= |t| {
        assert s[i..i + 5] == t[i..i + 5];
        assert !OccursAt(t, SaverThread.TreeSuffix, i);
      } else {
        NoOccurrenceAcrossSuffix(t, i);
      }
    }
    assert OccursAt(s, SaverThread.TreeSuffix, |t|) by {
      assert s[|t|..|t| + 5] == SaverThread.TreeSuffix;
    }
    assert FirstOccurrence(s, SaverThread.TreeSuffix, 0) == |t|;
    assert s[..|t|] == t;
    assert EndsWith(s, SaverThread.TreeSuffix);
    assert [s][..0] == [];
  }

  /** A message received on the loader socket: the status frame and the frames
      after it (the empty delimiter frame is not kept). */
  datatype Received = Received(status: Status, body: seq<string>)

  /** A three-frame message, the only kind the loader looks at. */
  predicate IsAnswer(r: Received)
  {
    |r.body| == 1
  }

  /** The loader's success test (threads.py:390-394). */
  predicate CountedAsLoaded(r: Received)
  {
    IsAnswer(r) && r.status != Failure
  }

  /** The number of polls that brought a message the loader counts as a
      successful load. */
  function Loaded(polls: seq<Option<Received>>): nat
  {
    if |polls| == 0 then 0
    else
      var p := polls[|polls| - 1];
      Loaded(polls[..|polls| - 1]) + (if p.Some? && CountedAsLoaded(p.value) then 1 else 0)
  }

  /** The waiting loop as written (threads.py:384-398), over the results of
      successive polls (None: nothing arrived within the poll timeout). It
      returns after the first poll at which the successes counted reach the
      number of requests issued; failures are logged and not counted. */
  method Await(issued: nat, polls: seq<Option<Received>>) returns (loaded: nat, returnedAt: Option<nat>)
    ensures returnedAt.Some? ==> returnedAt.value < |polls| && loaded == issued &&
                                  Loaded(polls[..returnedAt.value + 1]) == issued
    ensures returnedAt.Some? ==> forall m :: 0 < m <= returnedAt.value ==> Loaded(polls[..m]) != issued
    ensures returnedAt.None? ==> loaded == Loaded(polls) && forall m :: 0 < m <= |polls| ==> Loaded(polls[..m]) != issued
  {
    loaded, returnedAt := 0, None;
    var k := 0;
    while k < |polls|
      invariant 0 <= k <= |polls|
      invariant loaded == Loaded(polls[..k])
      invariant forall m :: 0 < m <= k ==> Loaded(polls[..m]) != issued
    {
      assert polls[..k + 1][..k] == polls[..k];
      var p := polls[k];
      if p.Some? && |p.value.body| == 1 {
        if p.value.status != Failure {
          loaded := loaded + 1;
        }
      }
      if loaded == issued {
        return loaded, Some(k);
      }
      k := k + 1;
    }
    assert polls[..k] == polls;
  }

  /** The number of polls that brought a three-frame answer to a load,
      successful or not. */
  function Answered(polls: seq<Option<Received>>): nat
  {
    if |polls| == 0 then 0
    else
      var p := polls[|polls| - 1];
      Answered(polls[..|polls| - 1]) + (if p.Some? && IsAnswer(p.value) then 1 else 0)
  }

  /** The number of polls that brought a FAILURE answer. */
  function FailedLoads(polls: seq<Option<Received>>): nat
  {
    if |polls| == 0 then 0
    else
      var p := polls[|polls| - 1];
      FailedLoads(polls[..|polls| - 1]) + (if p.Some? && IsAnswer(p.value) && p.value.status == Failure then 1 else 0)
  }

  lemma {:induction false} AnsweredSplits(polls: seq<Option<Received>>)
    ensures Answered(polls) == Loaded(polls) + FailedLoads(polls)
  {
    if |polls| > 0 {
      AnsweredSplits(polls[..|polls| - 1]);
    }
  }

  lemma {:induction false} LoadedGrowsWithPrefix(polls: seq<Option<Received>>, m: nat)
    requires m <= |polls|
    ensures Loaded(polls[..m]) <= Loaded(polls)
    decreases |polls|
  {
    if m < |polls| {
      assert polls[..|polls| - 1][..m] == polls[..m];
      LoadedGrowsWithPrefix(polls[..|polls| - 1], m);
    } else {
      assert polls[..m] == polls;
    }
  }

  /** The finding: when each request is answered at most once and some load
      failed, the successes never reach the number issued, so the loader as
      written never returns. */
  lemma LoaderHangsAfterFailure(issued: nat, polls: seq<Option<Received>>)
    requires Answered(polls) <= issued
    requires FailedLoads(polls) > 0
    ensures forall m :: 0 < m <= |polls| ==> Loaded(polls[..m]) != issued
  {
    AnsweredSplits(polls);
    forall m | 0 < m <= |polls|
      ensures Loaded(polls[..m]) != issued
    {
      LoadedGrowsWithPrefix(polls, m);
    }
  }

  /** The smallest instance: one tree file whose load fails, then silence. */
  lemma OneFailedLoadHangs()
    ensures forall m :: 0 < m <= 3 ==> Loaded([Some(Received(Failure, ["error"])), None, None][..m]) != 1
  {
    var polls := [Some(Received(Failure, ["error"])), None, None];
    assert polls[..2][..1] == polls[..1] && polls[..1][..0] == [];
    assert Answered(polls[..1]) == 1 && FailedLoads(polls[..1]) == 1;
    assert Answered(polls[..2]) == 1 && FailedLoads(polls[..2]) == 1;
    assert polls[..2] == polls[..|polls| - 1];
    LoaderHangsAfterFailure(1, polls);
  }

  /** The waiting loop as evidently intended: failures are counted as
      answered too, and the loader returns once every request is answered. */
  method AwaitAcknowledged(issued: nat, polls: seq<Option<Received>>)
    returns (loaded: nat, failed: nat, returnedAt: Option<nat>)
    ensures returnedAt.Some? ==> returnedAt.value < |polls| && loaded + failed == issued &&
                                  Answered(polls[..returnedAt.value + 1]) == issued &&
                                  loaded == Loaded(polls[..returnedAt.value + 1]) &&
                                  failed == FailedLoads(polls[..returnedAt.value + 1])
    ensures returnedAt.Some? ==> forall m :: 0 < m <= returnedAt.value ==> Answered(polls[..m]) != issued
    ensures returnedAt.None? ==> forall m :: 0 < m <= |polls| ==> Answered(polls[..m]) != issued
  {
    loaded, failed, returnedAt := 0, 0, None;
    var k := 0;
    while k < |polls|
      invariant 0 <= k <= |polls|
      invariant loaded == Loaded(polls[..k]) && failed == FailedLoads(polls[..k])
      invariant forall m :: 0 < m <= k ==> Answered(polls[..m]) != issued
    {
      CountsStep(polls, k);
      var p := polls[k];
      if p.Some? && |p.value.body| == 1 {
        if p.value.status != Failure {
          loaded := loaded + 1;
        } else {
          failed := failed + 1;
        }
      }
      if loaded + failed == issued {
        return loaded, failed, Some(k);
      }
      k := k + 1;
    }
  }

  /** The three counts on a prefix one poll longer. */
  lemma CountsStep(polls: seq<Option<Received>>, k: nat)
    requires k < |polls|
    ensures var p := polls[k];
      Loaded(polls[..k + 1]) == Loaded(polls[..k]) + (if p.Some? && CountedAsLoaded(p.value) then 1 else 0) &&
      FailedLoads(polls[..k + 1]) == FailedLoads(polls[..k]) + (if p.Some? && IsAnswer(p.value) && p.value.status == Failure then 1 else 0) &&
      Answered(polls[..k + 1]) == Loaded(polls[..k + 1]) + FailedLoads(polls[..k + 1])
  {
    assert polls[..k + 1][..k] == polls[..k];
    AnsweredSplits(polls[..k + 1]);
  }

  lemma {:induction false} AnsweredGrowsWithPrefix(polls: seq<Option<Received>>, m: nat)
    requires m <= |polls|
    ensures Answered(polls[..m]) <= Answered(polls)
    decreases |polls|
  {
    if m < |polls| {
      assert polls[..|polls| - 1][..m] == polls[..m];
      AnsweredGrowsWithPrefix(polls[..|polls| - 1], m);
    } else {
      assert polls[..m] == polls;
    }
  }

  /** Answers arrive one per poll, so the count passes through every value
      between its first and its last. */
  lemma {:induction false} AnsweredPassesThrough(polls: seq<Option<Received>>, n: nat)
    requires |polls| > 0
    requires Answered(polls[..1]) <= n <= Answered(polls)
    ensures exists m :: 0 < m <= |polls| && Answered(polls[..m]) == n
  {
    assert polls[..|polls|] == polls;
    if Answered(polls) != n {
      var init := polls[..|polls| - 1];
      assert init[..1] == polls[..1];
      AnsweredPassesThrough(init, n);
      var m :| 0 < m <= |init| && Answered(init[..m]) == n;
      assert init[..m] == polls[..m];
    }
  }

  /** When every issued request is answered exactly once, the corrected loop
      returns: some poll brings the answer count to the number issued. */
  lemma AcknowledgedReturns(issued: nat, polls: seq<Option<Received>>)
    requires |polls| > 0
    requires Answered(polls) == issued
    ensures exists m :: 0 < m <= |polls| && Answered(polls[..m]) == issued
  {
    AnsweredGrowsWithPrefix(polls, 1);
    AnsweredPassesThrough(polls, issued);
  }
}
