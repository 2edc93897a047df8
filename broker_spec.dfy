/** The broker loop of threads.py (BrokerThread.run) as pure transitions over
    the state it owns: the worker queue, the pending list, the lock table
    (readTrees, writeTrees) and the save-debounce counters. Each event
    handler maps the state before the event to the state after it and the
    actions it emits; a handler that would raise an uncaught Python
    exception (list.remove or set.remove of a missing element) yields
    Raised, since that ends the broker thread. */
module BrokerSpec {
  import opened Wire

  /** Broker settings (threads.py:35-45); all times are milliseconds. */
  datatype Config = Config(beatInterval: int, beatLiveness: int, expectedPerformance: int, saveLimit: int)

  /** An idle worker known to the worker queue. */
  datatype Worker = Worker(address: Address, expiry: int)

  /** A request waiting in the pending list, with its absolute deadline. */
  datatype Pending = Pending(client: Address, statement: string, tree: TreeName, expiry: int, kind: OpKind)

  datatype State = State(
    workers: seq<Worker>,               // the worker queue, oldest first
    mq: seq<Pending>,                   // the pending list, in arrival order
    readTrees: seq<TreeName>,           // one entry per in-flight operation or flush
    writeTrees: set<TreeName>,          // trees with an in-flight write or flush
    saveCounter: map<TreeName, int>,    // completed writes since the last flush
    heartbeatAt: int)                   // next heartbeat deadline

  /** Result of a handler that cannot raise. */
  datatype Step = Step(state: State, out: seq<Action>)

  /** Result of a handler that may raise: the actions sent before the raise
      are still emitted. */
  datatype Outcome = Next(state: State, out: seq<Action>) | Raised(out: seq<Action>)

  const ResourcesBusy := "Resources busy"
  const ExpectedTimeout := "Expected Timeout computed"

  // ---------------------------------------------------------------- lock table

  /** Python's list.remove(t) on readTrees, for the case where it does not raise. */
  function RemoveFirst(s: seq<TreeName>, t: TreeName): (r: seq<TreeName>)
    ensures t in s ==> multiset(r) == multiset(s) - multiset{t}
    ensures t !in s ==> r == s
  {
    if |s| == 0 then []
    else if s[0] == t then
      assert s == [s[0]] + s[1..];
      s[1..]
    else
      assert s == [s[0]] + s[1..];
      [s[0]] + RemoveFirst(s[1..], t)
  }

  /** Read/write exclusion: a tree held by a write (or its flush) has exactly
      one in-flight entry in readTrees, namely that write. */
  predicate Exclusive(readTrees: seq<TreeName>, writeTrees: set<TreeName>)
  {
    forall t :: t in writeTrees ==> multiset(readTrees)[t] == 1
  }

  /** The worker queue lists each worker address at most once. */
  predicate Distinct(ws: seq<Worker>)
  {
    forall i, j :: 0 <= i < j < |ws| ==> ws[i].address != ws[j].address
  }

  predicate Inv(st: State)
  {
    Exclusive(st.readTrees, st.writeTrees) && Distinct(st.workers)
  }

  /** The dispatch guard: a write needs the tree free of every operation,
      a read needs it free of writes. */
  predicate CanDispatch(kind: OpKind, tree: TreeName, readTrees: seq<TreeName>, writeTrees: set<TreeName>)
  {
    if kind == Write then tree !in readTrees else tree !in writeTrees
  }

  function WriteLocks(writeTrees: set<TreeName>, kind: OpKind, tree: TreeName): set<TreeName>
  {
    if kind == Write then writeTrees + {tree} else writeTrees
  }

  /** Dispatching under the guard keeps read/write exclusion. */
  lemma AcquireKeepsExclusive(readTrees: seq<TreeName>, writeTrees: set<TreeName>, kind: OpKind, tree: TreeName)
    requires Exclusive(readTrees, writeTrees)
    requires CanDispatch(kind, tree, readTrees, writeTrees)
    ensures Exclusive(readTrees + [tree], WriteLocks(writeTrees, kind, tree))
    ensures multiset(readTrees + [tree])[tree] == multiset(readTrees)[tree] + 1
  {
    assert multiset(readTrees + [tree]) == multiset(readTrees) + multiset{tree};
  }

  /** Releasing one in-flight entry of t, and t's write lock, keeps exclusion. */
  lemma ReleaseKeepsExclusive(readTrees: seq<TreeName>, writeTrees: set<TreeName>, t: TreeName)
    requires Exclusive(readTrees, writeTrees)
    requires t in readTrees
    ensures Exclusive(RemoveFirst(readTrees, t), writeTrees - {t})
    ensures multiset(RemoveFirst(readTrees, t))[t] == multiset(readTrees)[t] - 1
  {
  }

  /** Releasing one read entry of a tree without a write lock keeps exclusion. */
  lemma ReleaseReadKeepsExclusive(readTrees: seq<TreeName>, writeTrees: set<TreeName>, t: TreeName)
    requires Exclusive(readTrees, writeTrees)
    requires t in readTrees && t !in writeTrees
    ensures Exclusive(RemoveFirst(readTrees, t), writeTrees)
  {
  }

  /** collections.Counter lookup: a missing tree counts zero writes. */
  function Counter(m: map<TreeName, int>, t: TreeName): int
  {
    if t in m then m[t] else 0
  }

  // -------------------------------------------------------------- worker queue

  /** Keeping the last worker of a duplicate-free queue after a
      duplicate-free selection from the others stays duplicate-free. */
  lemma DistinctSnoc(ws: seq<Worker>, p: seq<Worker>)
    requires |ws| > 0 && forall w :: w in p ==> w in ws[..|ws| - 1]
    ensures Distinct(ws) && Distinct(p) ==> Distinct(p + [ws[|ws| - 1]])
  {
    if Distinct(ws) && Distinct(p) {
      var last := ws[|ws| - 1];
      forall w | w in p
        ensures w.address != last.address
      {
        var k :| 0 <= k < |ws| - 1 && ws[..|ws| - 1][k] == w;
        assert ws[k] == w;
      }
      var q := p + [last];
      forall i, j | 0 <= i < j < |q|
        ensures q[i].address != q[j].address
      {
        if j == |p| {
          assert q[i] == p[i] && p[i] in p;
        } else {
          assert q[i] == p[i] && q[j] == p[j];
        }
      }
    }
  }

  /** The queue without the entry for address a: every other entry is kept,
      in its order. */
  function Without(ws: seq<Worker>, a: Address): (r: seq<Worker>)
    ensures forall w :: w in r <==> w in ws && w.address != a
    ensures IsSubseq(r, ws)
    ensures Distinct(ws) ==> Distinct(r)
  {
    if |ws| == 0 then []
    else
      var init, last := ws[..|ws| - 1], ws[|ws| - 1];
      var p := Without(init, a);
      AppendLast(init, last);
      assert ws == init + [last];
      SubseqExtend(p, init, last);
      if last.address == a then assert p + [] == p; p
      else
        DistinctSnoc(ws, p);
        p + [last]
  }

  /** WorkerQueue.ready: a (re)announced worker goes to the back of the queue
      with a fresh expiry. */
  function Ready(cfg: Config, ws: seq<Worker>, a: Address, now: int): seq<Worker>
  {
    Without(ws, a) + [Worker(a, now + cfg.expectedPerformance * cfg.beatLiveness)]
  }

  /** WorkerQueue.purge: the workers whose expiry has not passed, in queue
      order. */
  function Purge(ws: seq<Worker>, now: int): (r: seq<Worker>)
    ensures forall w :: w in r <==> w in ws && now <= w.expiry
    ensures IsSubseq(r, ws)
    ensures Distinct(ws) ==> Distinct(r)
  {
    if |ws| == 0 then []
    else
      var init, last := ws[..|ws| - 1], ws[|ws| - 1];
      var p := Purge(init, now);
      AppendLast(init, last);
      assert ws == init + [last];
      SubseqExtend(p, init, last);
      if now > last.expiry then assert p + [] == p; p
      else
        DistinctSnoc(ws, p);
        p + [last]
  }

  lemma ReadyKeepsDistinct(cfg: Config, ws: seq<Worker>, a: Address, now: int)
    requires Distinct(ws)
    ensures Distinct(Ready(cfg, ws, a, now))
    ensures var r := Ready(cfg, ws, a, now);
      r[|r| - 1].address == a && (forall i :: 0 <= i < |r| - 1 ==> r[i].address != a)
    ensures var r := Ready(cfg, ws, a, now);
      r[..|r| - 1] == Without(ws, a) && IsSubseq(r[..|r| - 1], ws) &&
      (forall w :: w in ws && w.address != a ==> w in r)
  {
    var r := Ready(cfg, ws, a, now);
    var p := Without(ws, a);
    forall i | 0 <= i < |r| - 1
      ensures r[i].address != a
    {
      assert r[i] == p[i] && p[i] in p;
    }
  }

  // ------------------------------------------------------------ worker channel

  /** Worker-socket handler (threads.py:74-109). */
  function HandleWorker(cfg: Config, trees: set<TreeName>, st: State, ev: WorkerEvent, now: int): Outcome
  {
    match ev
    case Partial(w, c, payload) =>
      Next(st, [Reply(c, Message, [payload])])
    case Failed(w, c, detail, t) =>
      if t !in st.readTrees then Raised([])
      else Next(st.(readTrees := RemoveFirst(st.readTrees, t), writeTrees := st.writeTrees - {t}),
                [Reply(c, Failure, [detail])])
    case Completed(w, c, t) =>
      var out := [Reply(c, Complete, [])];
      if t in st.writeTrees then
        if t !in trees then
          if t !in st.readTrees then Raised(out)
          else Next(st.(saveCounter := st.saveCounter - {t},
                        readTrees := RemoveFirst(st.readTrees, t),
                        writeTrees := st.writeTrees - {t}), out)
        else
          var n := Counter(st.saveCounter, t) + 1;
          if n >= cfg.saveLimit then
            Next(st.(saveCounter := st.saveCounter[t := n]), out + [ToSaver(FlushJob(w, c, t))])
          else if t !in st.readTrees then Raised(out)
          else Next(st.(saveCounter := st.saveCounter[t := n],
                        readTrees := RemoveFirst(st.readTrees, t),
                        writeTrees := st.writeTrees - {t}), out)
      else if t !in st.readTrees then Raised(out)
      else Next(st.(readTrees := RemoveFirst(st.readTrees, t)), out)
    case Alive(w) =>
      Next(st.(workers := Ready(cfg, st.workers, w, now)), [])
  }

  /** Under the invariant, a worker message raises exactly when it reports the
      end of an operation on a tree that has no in-flight entry. */
  lemma HandleWorkerRaisesIff(cfg: Config, trees: set<TreeName>, st: State, ev: WorkerEvent, now: int)
    requires Inv(st)
    ensures HandleWorker(cfg, trees, st, ev, now).Raised? <==>
      ((ev.Failed? || ev.Completed?) && ev.tree !in st.readTrees)
  {
    if ev.Completed? && ev.tree in st.writeTrees {
      assert multiset(st.readTrees)[ev.tree] == 1;
    }
  }

  lemma HandleWorkerKeepsInv(cfg: Config, trees: set<TreeName>, st: State, ev: WorkerEvent, now: int)
    requires Inv(st)
    requires HandleWorker(cfg, trees, st, ev, now).Next?
    ensures Inv(HandleWorker(cfg, trees, st, ev, now).state)
  {
    match ev
    case Partial(_, _, _) =>
    case Failed(_, _, _, t) =>
      ReleaseKeepsExclusive(st.readTrees, st.writeTrees, t);
    case Completed(_, _, t) =>
      if t in st.writeTrees {
        if t !in trees || Counter(st.saveCounter, t) + 1 < cfg.saveLimit {
          ReleaseKeepsExclusive(st.readTrees, st.writeTrees, t);
        }
      } else {
        ReleaseReadKeepsExclusive(st.readTrees, st.writeTrees, t);
      }
    case Alive(w) =>
      ReadyKeepsDistinct(cfg, st.workers, w, now);
  }

  /** A write completes on a tree that still exists: its counter goes up by
      one; at the save limit the job goes to the saver and the locks stay,
      otherwise the write's entry and its write lock are released. */
  lemma WriteCompleteOnLiveTree(cfg: Config, trees: set<TreeName>, st: State, w: Address, c: Address, t: TreeName, now: int)
    requires Inv(st)
    requires t in st.writeTrees && t in trees
    ensures var o := HandleWorker(cfg, trees, st, Completed(w, c, t), now);
      var n := Counter(st.saveCounter, t) + 1;
      o.Next? && o.state.saveCounter == st.saveCounter[t := n] &&
      o.state.workers == st.workers && o.state.mq == st.mq &&
      o.out[0] == Reply(c, Complete, []) &&
      (n >= cfg.saveLimit ==>
         o.out == [Reply(c, Complete, []), ToSaver(FlushJob(w, c, t))] &&
         o.state.readTrees == st.readTrees && o.state.writeTrees == st.writeTrees) &&
      (n < cfg.saveLimit ==>
         o.out == [Reply(c, Complete, [])] &&
         t !in o.state.readTrees && o.state.writeTrees == st.writeTrees - {t} &&
         multiset(o.state.readTrees) == multiset(st.readTrees) - multiset{t})
  {
    var n := Counter(st.saveCounter, t) + 1;
    assert multiset(st.readTrees)[t] == 1;
    if n < cfg.saveLimit {
      ReleaseKeepsExclusive(st.readTrees, st.writeTrees, t);
    }
  }

  /** A write completes on a tree that no longer exists: its counter is
      dropped and the lock is fully released. */
  lemma WriteCompleteOnDroppedTree(cfg: Config, trees: set<TreeName>, st: State, w: Address, c: Address, t: TreeName, now: int)
    requires Inv(st)
    requires t in st.writeTrees && t !in trees
    ensures var o := HandleWorker(cfg, trees, st, Completed(w, c, t), now);
      o.Next? && o.out == [Reply(c, Complete, [])] &&
      o.state.saveCounter == st.saveCounter - {t} && t !in o.state.saveCounter &&
      o.state.workers == st.workers && o.state.mq == st.mq &&
      t !in o.state.readTrees && t !in o.state.writeTrees &&
      o.state.writeTrees == st.writeTrees - {t} &&
      multiset(o.state.readTrees) == multiset(st.readTrees) - multiset{t}
  {
    assert multiset(st.readTrees)[t] == 1;
    ReleaseKeepsExclusive(st.readTrees, st.writeTrees, t);
  }

  /** A read completes: exactly one in-flight entry of the tree goes, and the
      write locks and counters stay. */
  lemma ReadComplete(cfg: Config, trees: set<TreeName>, st: State, w: Address, c: Address, t: TreeName, now: int)
    requires t in st.readTrees && t !in st.writeTrees
    ensures var o := HandleWorker(cfg, trees, st, Completed(w, c, t), now);
      o.Next? && o.out == [Reply(c, Complete, [])] &&
      multiset(o.state.readTrees) == multiset(st.readTrees) - multiset{t} &&
      o.state.writeTrees == st.writeTrees && o.state.saveCounter == st.saveCounter &&
      o.state.workers == st.workers && o.state.mq == st.mq
  {
  }

  /** A failure forwards the error and releases one entry and any write lock
      of the tree; the counters stay. */
  lemma FailureReleases(cfg: Config, trees: set<TreeName>, st: State, w: Address, c: Address, d: string, t: TreeName, now: int)
    requires t in st.readTrees
    ensures var o := HandleWorker(cfg, trees, st, Failed(w, c, d, t), now);
      o.Next? && o.out == [Reply(c, Failure, [d])] &&
      multiset(o.state.readTrees) == multiset(st.readTrees) - multiset{t} &&
      t !in o.state.writeTrees && o.state.writeTrees == st.writeTrees - {t} &&
      o.state.saveCounter == st.saveCounter && o.state.workers == st.workers && o.state.mq == st.mq
  {
  }

  /** A partial result is forwarded verbatim and changes nothing. */
  lemma PartialForwards(cfg: Config, trees: set<TreeName>, st: State, w: Address, c: Address, p: string, now: int)
    ensures HandleWorker(cfg, trees, st, Partial(w, c, p), now) == Next(st, [Reply(c, Message, [p])])
  {
  }

  // ---------------------------------------------------------------- heartbeats

  function HeartbeatsTo(ws: seq<Worker>): (r: seq<Action>)
  {
    if |ws| == 0 then [] else HeartbeatsTo(ws[..|ws| - 1]) + [Heartbeat(ws[|ws| - 1].address)]
  }

  lemma {:induction false} HeartbeatsToEach(ws: seq<Worker>)
    ensures |HeartbeatsTo(ws)| == |ws|
    ensures forall i :: 0 <= i < |ws| ==> HeartbeatsTo(ws)[i] == Heartbeat(ws[i].address)
  {
    if |ws| > 0 {
      HeartbeatsToEach(ws[..|ws| - 1]);
    }
  }

  /** Heartbeat emission (threads.py:113-117). */
  function EmitHeartbeats(cfg: Config, st: State, now: int): Step
  {
    if now >= st.heartbeatAt then
      Step(st.(heartbeatAt := now + cfg.beatInterval), HeartbeatsTo(st.workers))
    else Step(st, [])
  }

  // ------------------------------------------------------------- pending sweep

  datatype SweepAcc = SweepAcc(kept: seq<Pending>, out: seq<Action>, workers: seq<Worker>,
                               readTrees: seq<TreeName>, writeTrees: set<TreeName>)

  function SweepStart(st: State): SweepAcc
  {
    SweepAcc([], [], st.workers, st.readTrees, st.writeTrees)
  }

  /** One iteration of the scan over the pending list (threads.py:123-142). */
  function SweepOne(acc: SweepAcc, m: Pending, now: int): SweepAcc
  {
    if now > m.expiry then
      acc.(out := acc.out + [Reply(m.client, Timeout, [ResourcesBusy])])
    else if |acc.workers| > 0 && CanDispatch(m.kind, m.tree, acc.readTrees, acc.writeTrees) then
      acc.(out := acc.out + [Job(acc.workers[0].address, m.client, m.statement)],
           workers := acc.workers[1..],
           readTrees := acc.readTrees + [m.tree],
           writeTrees := WriteLocks(acc.writeTrees, m.kind, m.tree))
    else
      acc.(kept := acc.kept + [m])
  }

  /** The scan after its first i iterations. */
  function SweepUpTo(mq: seq<Pending>, i: nat, now: int, start: SweepAcc): SweepAcc
    requires i <= |mq|
  {
    if i == 0 then start else SweepOne(SweepUpTo(mq, i - 1, now, start), mq[i - 1], now)
  }

  /** The pending sweep (threads.py:120-144): the kept messages replace the list. */
  function SweepPending(st: State, now: int): Step
  {
    var a := SweepUpTo(st.mq, |st.mq|, now, SweepStart(st));
    Step(st.(mq := a.kept, workers := a.workers, readTrees := a.readTrees, writeTrees := a.writeTrees), a.out)
  }

  /** Independent reference: the messages whose deadline has not passed. */
  function Unexpired(mq: seq<Pending>, now: int): seq<Pending>
  {
    if |mq| == 0 then []
    else Unexpired(mq[..|mq| - 1], now) + (if now <= mq[|mq| - 1].expiry then [mq[|mq| - 1]] else [])
  }

  /** Independent reference: the clients of the messages whose deadline has passed. */
  function ExpiredClients(mq: seq<Pending>, now: int): seq<Address>
  {
    if |mq| == 0 then []
    else ExpiredClients(mq[..|mq| - 1], now) + (if now > mq[|mq| - 1].expiry then [mq[|mq| - 1].client] else [])
  }

  /** The clients answered with TIMEOUT, in order. */
  function TimeoutClients(out: seq<Action>): seq<Address>
  {
    if |out| == 0 then []
    else
      var last := out[|out| - 1];
      TimeoutClients(out[..|out| - 1]) + (if last.Reply? && last.status == Timeout then [last.client] else [])
  }

  /** a can be obtained from b by deleting elements. */
  predicate IsSubseq<T(==)>(a: seq<T>, b: seq<T>)
    decreases |b|
  {
    if |a| == 0 then true
    else if |b| == 0 then false
    else (a[|a| - 1] == b[|b| - 1] && IsSubseq(a[..|a| - 1], b[..|b| - 1])) || IsSubseq(a, b[..|b| - 1])
  }

  lemma SubseqExtend<T>(a: seq<T>, b: seq<T>, x: T)
    requires IsSubseq(a, b)
    ensures IsSubseq(a, b + [x]) && IsSubseq(a + [x], b + [x])
  {
    assert (b + [x])[..|b|] == b;
    assert (a + [x])[..|a|] == a;
  }

  lemma AppendLast<T>(s: seq<T>, x: T)
    ensures (s + [x])[..|s|] == s && (s + [x])[|s|] == x
  {
  }

  /** One scan step answers m with TIMEOUT exactly when it has expired, and
      keeps it, at the end, only when it has not. */
  lemma SweepOneAnswers(acc: SweepAcc, m: Pending, now: int)
    ensures var b := SweepOne(acc, m, now);
      TimeoutClients(b.out) == TimeoutClients(acc.out) + (if now > m.expiry then [m.client] else []) &&
      (b.kept == acc.kept || (now <= m.expiry && b.kept == acc.kept + [m]))
  {
    var b := SweepOne(acc, m, now);
    if b.out != acc.out {
      AppendLast(acc.out, b.out[|b.out| - 1]);
    }
  }

  /** The reference functions on a prefix one element longer. */
  lemma ReferencesStep(mq: seq<Pending>, i: nat, now: int)
    requires 0 < i <= |mq|
    ensures var m := mq[i - 1];
      Unexpired(mq[..i], now) == Unexpired(mq[..i - 1], now) + (if now <= m.expiry then [m] else []) &&
      ExpiredClients(mq[..i], now) == ExpiredClients(mq[..i - 1], now) + (if now > m.expiry then [m.client] else [])
  {
    assert mq[..i][..i - 1] == mq[..i - 1];
  }

  /** The messages that stay are unexpired and keep their relative order. */
  lemma {:induction false} SweepKeepsOrder(mq: seq<Pending>, i: nat, now: int, start: SweepAcc)
    requires i <= |mq| && start.kept == []
    ensures IsSubseq(SweepUpTo(mq, i, now, start).kept, Unexpired(mq[..i], now))
  {
    if i > 0 {
      SweepKeepsOrder(mq, i - 1, now, start);
      var a := SweepUpTo(mq, i - 1, now, start);
      var m := mq[i - 1];
      ReferencesStep(mq, i, now);
      SweepOneAnswers(a, m, now);
      var u := Unexpired(mq[..i - 1], now);
      SubseqExtend(a.kept, u, m);
      if now > m.expiry {
        assert u + [] == u;
      }
    }
  }

  /** Every expired message, and only those, is answered with TIMEOUT, in
      list order. */
  lemma {:induction false} SweepTimesOutExpired(mq: seq<Pending>, i: nat, now: int, start: SweepAcc)
    requires i <= |mq| && start.out == []
    ensures TimeoutClients(SweepUpTo(mq, i, now, start).out) == ExpiredClients(mq[..i], now)
  {
    if i > 0 {
      SweepTimesOutExpired(mq, i - 1, now, start);
      ReferencesStep(mq, i, now);
      SweepOneAnswers(SweepUpTo(mq, i - 1, now, start), mq[i - 1], now);
    }
  }

  /** What the scan does with message j, decided on the state the scan has
      reached when it gets there (threads.py:123-142): an expired message is
      answered with TIMEOUT; an unexpired one is sent when a worker is idle
      and the lock guard admits it; otherwise it stays in the list. */
  datatype Fate = TimedOut | Sent | Stays

  function FateOf(acc: SweepAcc, m: Pending, now: int): Fate
  {
    if now > m.expiry then TimedOut
    else if |acc.workers| > 0 && CanDispatch(m.kind, m.tree, acc.readTrees, acc.writeTrees) then Sent
    else Stays
  }

  function FateAt(mq: seq<Pending>, j: nat, now: int, start: SweepAcc): Fate
    requires j < |mq|
  {
    FateOf(SweepUpTo(mq, j, now, start), mq[j], now)
  }

  /** The messages among the first i whose fate is f, in list order. */
  function WithFate(mq: seq<Pending>, i: nat, now: int, start: SweepAcc, f: Fate): seq<Pending>
    requires i <= |mq|
  {
    if i == 0 then []
    else WithFate(mq, i - 1, now, start, f) + (if FateAt(mq, i - 1, now, start) == f then [mq[i - 1]] else [])
  }

  /** The jobs among the actions, in order. */
  function Jobs(out: seq<Action>): seq<Action>
  {
    if |out| == 0 then []
    else Jobs(out[..|out| - 1]) + (if out[|out| - 1].Job? then [out[|out| - 1]] else [])
  }

  /** The trees of the messages, with multiplicity. */
  function ReadTargets(ms: seq<Pending>): multiset<TreeName>
  {
    if |ms| == 0 then multiset{} else ReadTargets(ms[..|ms| - 1]) + multiset{ms[|ms| - 1].tree}
  }

  /** The trees of the write messages. */
  function WriteTargets(ms: seq<Pending>): set<TreeName>
  {
    if |ms| == 0 then {}
    else WriteTargets(ms[..|ms| - 1]) + (if ms[|ms| - 1].kind == Write then {ms[|ms| - 1].tree} else {})
  }

  /** One more message sent: one more job, one more read entry, and a write
      lock for a write. */
  lemma SentStep(out: seq<Action>, a: Action, sent: seq<Pending>, m: Pending)
    ensures Jobs(out + [a]) == Jobs(out) + (if a.Job? then [a] else [])
    ensures ReadTargets(sent + [m]) == ReadTargets(sent) + multiset{m.tree}
    ensures WriteTargets(sent + [m]) == WriteTargets(sent) + (if m.kind == Write then {m.tree} else {})
  {
    AppendLast(out, a);
    AppendLast(sent, m);
  }

  /** The account of a scan that has reached a from start, having sent the
      messages sent and kept the messages stays, after n messages. */
  predicate Accounts(start: SweepAcc, a: SweepAcc, sent: seq<Pending>, stays: seq<Pending>, n: nat)
  {
    |a.kept| + |a.out| == n &&
    a.kept == stays &&
    |sent| <= |start.workers| && a.workers == start.workers[|sent|..] &&
    |Jobs(a.out)| == |sent| &&
    (forall k :: 0 <= k < |sent| ==>
       Jobs(a.out)[k] == Job(start.workers[k].address, sent[k].client, sent[k].statement)) &&
    multiset(a.readTrees) == multiset(start.readTrees) + ReadTargets(sent) &&
    a.writeTrees == start.writeTrees + WriteTargets(sent)
  }

  /** One scan step extends the account by the message's fate. */
  lemma AccountsStep(start: SweepAcc, a: SweepAcc, sent: seq<Pending>, stays: seq<Pending>, n: nat, m: Pending, now: int)
    requires Accounts(start, a, sent, stays, n)
    ensures var f := FateOf(a, m, now);
      Accounts(start, SweepOne(a, m, now),
               sent + (if f == Sent then [m] else []), stays + (if f == Stays then [m] else []), n + 1)
  {
    match FateOf(a, m, now)
    case Sent =>
      AccountsSent(start, a, sent, stays, n, m, now);
      assert stays + [] == stays;
    case Stays =>
      AccountsStays(start, a, sent, stays, n, m, now);
      assert sent + [] == sent;
    case TimedOut =>
      AccountsTimedOut(start, a, sent, stays, n, m, now);
      assert sent + [] == sent && stays + [] == stays;
  }

  lemma AccountsSent(start: SweepAcc, a: SweepAcc, sent: seq<Pending>, stays: seq<Pending>, n: nat, m: Pending, now: int)
    requires Accounts(start, a, sent, stays, n) && FateOf(a, m, now) == Sent
    ensures Accounts(start, SweepOne(a, m, now), sent + [m], stays, n + 1)
  {
    var j := Job(a.workers[0].address, m.client, m.statement);
    SentStep(a.out, j, sent, m);
    assert a.workers[0] == start.workers[|sent|];
    assert a.workers[1..] == start.workers[|sent| + 1..];
    assert multiset(a.readTrees + [m.tree]) == multiset(a.readTrees) + multiset{m.tree};
  }

  lemma AccountsStays(start: SweepAcc, a: SweepAcc, sent: seq<Pending>, stays: seq<Pending>, n: nat, m: Pending, now: int)
    requires Accounts(start, a, sent, stays, n) && FateOf(a, m, now) == Stays
    ensures Accounts(start, SweepOne(a, m, now), sent, stays + [m], n + 1)
  {
  }

  lemma AccountsTimedOut(start: SweepAcc, a: SweepAcc, sent: seq<Pending>, stays: seq<Pending>, n: nat, m: Pending, now: int)
    requires Accounts(start, a, sent, stays, n) && FateOf(a, m, now) == TimedOut
    ensures Accounts(start, SweepOne(a, m, now), sent, stays, n + 1)
  {
    var r := Reply(m.client, Timeout, [ResourcesBusy]);
    SentStep(a.out, r, sent, m);
  }

  /** The whole account of the scan: the messages that stay are exactly those
      whose fate is Stays; the jobs are, in order, one per sent message,
      carrying that message's client and statement to the successive heads
      of the worker queue; the read entries grow by exactly the sent trees
      and the write locks by exactly the sent writes' trees. */
  lemma {:induction false} SweepAccounts(mq: seq<Pending>, i: nat, now: int, start: SweepAcc)
    requires i <= |mq| && start.kept == [] && start.out == []
    ensures Accounts(start, SweepUpTo(mq, i, now, start),
                     WithFate(mq, i, now, start, Sent), WithFate(mq, i, now, start, Stays), i)
  {
    if i > 0 {
      SweepAccounts(mq, i - 1, now, start);
      AccountsStep(start, SweepUpTo(mq, i - 1, now, start),
                   WithFate(mq, i - 1, now, start, Sent), WithFate(mq, i - 1, now, start, Stays), i - 1,
                   mq[i - 1], now);
    } else {
      assert start.workers[0..] == start.workers;
    }
  }

  /** The messages of a fate other than TimedOut are, in list order, drawn
      from the unexpired ones. */
  lemma {:induction false} WithFateInUnexpired(mq: seq<Pending>, i: nat, now: int, start: SweepAcc, f: Fate)
    requires i <= |mq| && f != TimedOut
    ensures IsSubseq(WithFate(mq, i, now, start, f), Unexpired(mq[..i], now))
  {
    if i > 0 {
      WithFateInUnexpired(mq, i - 1, now, start, f);
      ReferencesStep(mq, i, now);
      var m := mq[i - 1];
      var u := Unexpired(mq[..i - 1], now);
      var w := WithFate(mq, i - 1, now, start, f);
      var g := FateAt(mq, i - 1, now, start);
      SubseqExtend(w, u, m);
      if g != f {
        assert w + [] == w;
        if now > m.expiry {
          assert u + [] == u;
        }
      }
    }
  }

  /** The sent and the staying messages split the unexpired ones: each, in
      list order, is drawn from them, and together they number as many. */
  lemma {:induction false} FatesCoverUnexpired(mq: seq<Pending>, i: nat, now: int, start: SweepAcc)
    requires i <= |mq|
    ensures var sent := WithFate(mq, i, now, start, Sent);
      var stays := WithFate(mq, i, now, start, Stays);
      var u := Unexpired(mq[..i], now);
      IsSubseq(sent, u) && IsSubseq(stays, u) && |sent| + |stays| == |u|
  {
    WithFateInUnexpired(mq, i, now, start, Sent);
    WithFateInUnexpired(mq, i, now, start, Stays);
    FatesCount(mq, i, now, start);
  }

  lemma {:induction false} FatesCount(mq: seq<Pending>, i: nat, now: int, start: SweepAcc)
    requires i <= |mq|
    ensures |WithFate(mq, i, now, start, Sent)| + |WithFate(mq, i, now, start, Stays)| == |Unexpired(mq[..i], now)|
  {
    if i > 0 {
      FatesCount(mq, i - 1, now, start);
      ReferencesStep(mq, i, now);
    }
  }

  /** With no idle worker the sweep only drops expired messages. */
  lemma {:induction false} SweepWithoutWorkers(mq: seq<Pending>, i: nat, now: int, start: SweepAcc)
    requires i <= |mq| && start.kept == [] && start.workers == []
    ensures var a := SweepUpTo(mq, i, now, start);
      a.kept == Unexpired(mq[..i], now) && a.workers == [] &&
      a.readTrees == start.readTrees && a.writeTrees == start.writeTrees
  {
    if i > 0 {
      SweepWithoutWorkers(mq, i - 1, now, start);
      assert mq[..i] == mq[..i - 1] + [mq[i - 1]];
      AppendLast(mq[..i - 1], mq[i - 1]);
    }
  }

  /** The sweep keeps read/write exclusion and the distinct worker queue. */
  lemma {:induction false} SweepKeepsInv(mq: seq<Pending>, i: nat, now: int, start: SweepAcc)
    requires i <= |mq| && Exclusive(start.readTrees, start.writeTrees) && Distinct(start.workers)
    ensures var a := SweepUpTo(mq, i, now, start);
      Exclusive(a.readTrees, a.writeTrees) && Distinct(a.workers)
  {
    if i > 0 {
      SweepKeepsInv(mq, i - 1, now, start);
      var a := SweepUpTo(mq, i - 1, now, start);
      var m := mq[i - 1];
      if now <= m.expiry && |a.workers| > 0 && CanDispatch(m.kind, m.tree, a.readTrees, a.writeTrees) {
        AcquireKeepsExclusive(a.readTrees, a.writeTrees, m.kind, m.tree);
      }
    }
  }

  lemma SweepPendingKeepsInv(st: State, now: int)
    requires Inv(st)
    ensures Inv(SweepPending(st, now).state)
  {
    SweepKeepsInv(st.mq, |st.mq|, now, SweepStart(st));
  }

  // ------------------------------------------------------------ client channel

  /** The absolute deadline of a request (threads.py:149-153). */
  function Deadline(cfg: Config, timeoutMs: Option<int>, now: int): int
  {
    match timeoutMs
    case Some(ms) => ms - cfg.expectedPerformance * cfg.beatLiveness + now
    case None => cfg.expectedPerformance + now
  }

  predicate NamesNoTree(tree: Option<TreeName>)
  {
    tree.None? || tree.value == ""
  }

  /** The request is answered at once and the rest of the wake is skipped
      (the two `continue` statements at threads.py:166 and 171). */
  predicate AnsweredAtOnce(cfg: Config, req: ClientRequest, now: int)
  {
    Deadline(cfg, req.timeoutMs, now) >= now &&
    (req.parsed.Unparsable? || NamesNoTree(req.parsed.tree))
  }

  /** What the handler does with a request it has not timed out
      (threads.py:158-192): a parse failure or a tree-less statement is
      answered, a dispatchable request goes to the head of the worker queue,
      anything else joins the pending list with its deadline. */
  function Admit(trees: set<TreeName>, st: State, req: ClientRequest, deadline: int): Step
  {
    match req.parsed
    case Unparsable(detail) => Step(st, [Reply(req.client, Failure, [detail])])
    case Parsed(kind, tree) =>
      if NamesNoTree(tree) then Step(st, [Listing(req.client, trees)])
      else if |st.workers| > 0 && CanDispatch(kind, tree.value, st.readTrees, st.writeTrees) then
        Step(st.(workers := st.workers[1..],
                 readTrees := st.readTrees + [tree.value],
                 writeTrees := WriteLocks(st.writeTrees, kind, tree.value)),
             [Job(st.workers[0].address, req.client, req.statement)])
      else
        Step(st.(mq := st.mq + [Pending(req.client, req.statement, tree.value, deadline, kind)]), [])
  }

  /** Client-socket handler as the source writes it (threads.py:146-192): the
      absolute deadline is compared with zero, so only a deadline before the
      clock's origin counts as expired on arrival. */
  function HandleClientAsWritten(cfg: Config, trees: set<TreeName>, st: State, req: ClientRequest, now: int): Step
  {
    var deadline := Deadline(cfg, req.timeoutMs, now);
    if deadline < 0 then Step(st, [Reply(req.client, Timeout, [ExpectedTimeout])])
    else Admit(trees, st, req, deadline)
  }

  /** Client-socket handler with the deadline compared with the clock, the way
      the pending sweep compares it (threads.py:130). */
  function HandleClient(cfg: Config, trees: set<TreeName>, st: State, req: ClientRequest, now: int): Step
  {
    var deadline := Deadline(cfg, req.timeoutMs, now);
    if deadline < now then Step(st, [Reply(req.client, Timeout, [ExpectedTimeout])])
    else Admit(trees, st, req, deadline)
  }

  lemma HandleClientKeepsInv(cfg: Config, trees: set<TreeName>, st: State, req: ClientRequest, now: int)
    requires Inv(st)
    ensures Inv(HandleClient(cfg, trees, st, req, now).state)
  {
    if Deadline(cfg, req.timeoutMs, now) >= now && req.parsed.Parsed? && !NamesNoTree(req.parsed.tree) {
      var t := req.parsed.tree.value;
      if |st.workers| > 0 && CanDispatch(req.parsed.kind, t, st.readTrees, st.writeTrees) {
        AcquireKeepsExclusive(st.readTrees, st.writeTrees, req.parsed.kind, t);
      }
    }
  }

  /** A request whose deadline has already passed gets TIMEOUT, and no worker
      is engaged and nothing is queued. */
  lemma ExpiredOnArrival(cfg: Config, trees: set<TreeName>, st: State, req: ClientRequest, now: int)
    requires Deadline(cfg, req.timeoutMs, now) < now
    ensures var r := HandleClient(cfg, trees, st, req, now);
      r.state == st && r.out == [Reply(req.client, Timeout, [ExpectedTimeout])]
  {
  }

  /** As written, a request whose deadline has passed but is not negative is
      still sent to an idle worker when the guard admits it. */
  lemma PastDeadlineDispatchedAsWritten(cfg: Config, trees: set<TreeName>, st: State, req: ClientRequest, now: int)
    requires 0 <= Deadline(cfg, req.timeoutMs, now) < now
    requires req.parsed.Parsed? && !NamesNoTree(req.parsed.tree) && |st.workers| > 0
    requires CanDispatch(req.parsed.kind, req.parsed.tree.value, st.readTrees, st.writeTrees)
    ensures HandleClientAsWritten(cfg, trees, st, req, now).out == [Job(st.workers[0].address, req.client, req.statement)]
    ensures HandleClient(cfg, trees, st, req, now).out == [Reply(req.client, Timeout, [ExpectedTimeout])]
  {
  }

  /** A concrete instance: a zero timeout on a one-second performance budget
      with liveness three, at clock 1000000 with one idle worker and no locks. */
  lemma ZeroTimeoutDispatchedAsWritten()
    ensures var cfg := Config(1000, 3, 1000, 10);
      var st := State([Worker("w", 2000000)], [], [], {}, map[], 0);
      var req := ClientRequest("c", "q", Some(0), Parsed(Read, Some("t")));
      Deadline(cfg, req.timeoutMs, 1000000) == 997000 &&
      HandleClientAsWritten(cfg, {"t"}, st, req, 1000000).out == [Job("w", "c", "q")] &&
      HandleClient(cfg, {"t"}, st, req, 1000000).out == [Reply("c", Timeout, [ExpectedTimeout])]
  {
  }

  /** A request that does not parse, or names no tree, is answered at once and
      the lock table, the pending list and the workers stay as they were. */
  lemma AnsweredWithoutDispatch(cfg: Config, trees: set<TreeName>, st: State, req: ClientRequest, now: int)
    requires AnsweredAtOnce(cfg, req, now)
    ensures var r := HandleClient(cfg, trees, st, req, now);
      r.state == st && |r.out| == 1 &&
      (req.parsed.Unparsable? ==> r.out[0] == Reply(req.client, Failure, [req.parsed.detail])) &&
      (req.parsed.Parsed? ==> r.out[0] == Listing(req.client, trees))
  {
  }

  /** A job is sent only when the guard allows it; it takes the head of the
      worker queue, adds one in-flight entry and, for a write, the write lock. */
  lemma ClientDispatchGuard(cfg: Config, trees: set<TreeName>, st: State, req: ClientRequest, now: int)
    requires var r := HandleClient(cfg, trees, st, req, now); |r.out| == 1 && r.out[0].Job?
    ensures req.parsed.Parsed? && req.parsed.tree.Some?
    ensures var r := HandleClient(cfg, trees, st, req, now);
      var t := req.parsed.tree.value;
      |st.workers| > 0 && CanDispatch(req.parsed.kind, t, st.readTrees, st.writeTrees) &&
      r.out[0] == Job(st.workers[0].address, req.client, req.statement) &&
      r.state.workers == st.workers[1..] &&
      multiset(r.state.readTrees) == multiset(st.readTrees) + multiset{t} &&
      r.state.writeTrees == WriteLocks(st.writeTrees, req.parsed.kind, t) &&
      r.state.mq == st.mq
  {
  }

  /** A request that names a tree, arrives before its deadline and finds an
      idle worker the guard admits is dispatched at once to the head of the
      worker queue, taking one in-flight entry and, for a write, the write
      lock; the pending list is untouched. */
  lemma ClientDispatched(cfg: Config, trees: set<TreeName>, st: State, req: ClientRequest, now: int)
    requires Deadline(cfg, req.timeoutMs, now) >= now
    requires req.parsed.Parsed? && !NamesNoTree(req.parsed.tree) && |st.workers| > 0
    requires CanDispatch(req.parsed.kind, req.parsed.tree.value, st.readTrees, st.writeTrees)
    ensures var r := HandleClient(cfg, trees, st, req, now);
      var t := req.parsed.tree.value;
      r.out == [Job(st.workers[0].address, req.client, req.statement)] &&
      r.state == st.(workers := st.workers[1..],
                     readTrees := st.readTrees + [t],
                     writeTrees := WriteLocks(st.writeTrees, req.parsed.kind, t))
  {
  }

  /** A request that names a tree but cannot be dispatched goes to the end of
      the pending list with its deadline; nothing else changes. */
  lemma ClientQueued(cfg: Config, trees: set<TreeName>, st: State, req: ClientRequest, now: int)
    requires Deadline(cfg, req.timeoutMs, now) >= now
    requires req.parsed.Parsed? && !NamesNoTree(req.parsed.tree)
    requires |st.workers| == 0 || !CanDispatch(req.parsed.kind, req.parsed.tree.value, st.readTrees, st.writeTrees)
    ensures var r := HandleClient(cfg, trees, st, req, now);
      r.out == [] &&
      r.state == st.(mq := st.mq + [Pending(req.client, req.statement, req.parsed.tree.value,
                                            Deadline(cfg, req.timeoutMs, now), req.parsed.kind)])
  {
  }

  // ------------------------------------------------------------- saver channel

  /** Full release of a flushed tree: its in-flight entry, its write lock, and
      its counter reset to zero. */
  function ReleaseFlushed(st: State, t: TreeName): Outcome
  {
    if t !in st.readTrees || t !in st.writeTrees then Raised([])
    else Next(st.(readTrees := RemoveFirst(st.readTrees, t),
                  writeTrees := st.writeTrees - {t},
                  saveCounter := st.saveCounter[t := 0]), [])
  }

  /** Saver-socket handler (threads.py:194-199), releasing the tree named in
      the saver's reply. */
  function HandleSaver(st: State, job: FlushJob): Outcome
  {
    ReleaseFlushed(st, job.tree)
  }

  /** The same handler as the source writes it: it releases `stale`, the value
      the local variable `tree` still holds from an earlier event, instead
      of the name in the reply. */
  function HandleSaverAsWritten(st: State, stale: TreeName, job: FlushJob): Outcome
  {
    ReleaseFlushed(st, stale)
  }

  /** The saver's reply fully releases the flushed tree. */
  lemma SaverReleases(st: State, job: FlushJob)
    requires Inv(st) && job.tree in st.writeTrees
    ensures var o := HandleSaver(st, job);
      o.Next? && o.out == [] &&
      job.tree !in o.state.readTrees && o.state.writeTrees == st.writeTrees - {job.tree} &&
      o.state.saveCounter == st.saveCounter[job.tree := 0] &&
      Inv(o.state)
  {
    assert multiset(st.readTrees)[job.tree] == 1;
    ReleaseKeepsExclusive(st.readTrees, st.writeTrees, job.tree);
  }

  lemma HandleSaverKeepsInv(st: State, job: FlushJob)
    requires Inv(st) && HandleSaver(st, job).Next?
    ensures Inv(HandleSaver(st, job).state)
  {
    SaverReleases(st, job);
  }

  /** With the stale name, a flushed tree stays write-locked for good once
      another event has reassigned `tree`: here the flush of "a" completes
      after a flush of "b" was ordered. */
  lemma StaleSaverNameKeepsLock()
    ensures var st := State([], [], ["a", "b"], {"a", "b"}, map[], 0);
      var o := HandleSaverAsWritten(st, "b", FlushJob("w", "c", "a"));
      o.Next? && "a" in o.state.writeTrees && "a" in o.state.readTrees &&
      HandleSaver(st, FlushJob("w", "c", "a")).Next? &&
      "a" !in HandleSaver(st, FlushJob("w", "c", "a")).state.writeTrees
  {
    var st := State([], [], ["a", "b"], {"a", "b"}, map[], 0);
    assert RemoveFirst(["a", "b"], "b") == ["a"];
    assert RemoveFirst(["a", "b"], "a") == ["b"];
  }

  /** With the stale name, the saver's reply kills the broker thread when the
      stale tree holds no write lock: here a read of "b" was dispatched
      after the flush of "a" was ordered. */
  lemma StaleSaverNameRaises()
    ensures var st := State([], [], ["a", "b"], {"a"}, map[], 0);
      HandleSaverAsWritten(st, "b", FlushJob("w", "c", "a")).Raised? &&
      HandleSaver(st, FlushJob("w", "c", "a")).Next?
  {
  }

  // --------------------------------------------------------------------- purge

  function PurgeWorkers(st: State, now: int): Step
  {
    Step(st.(workers := Purge(st.workers, now)), [])
  }

  // ---------------------------------------------------------------- one wake

  /** What one poll of the three sockets delivered. */
  datatype Poll = Poll(backend: Option<WorkerEvent>, frontend: Option<ClientRequest>, saver: Option<FlushJob>)

  /** The worker-socket branch, with the heartbeat check nested inside it. */
  function BackendStage(cfg: Config, trees: set<TreeName>, st: State, ev: Option<WorkerEvent>, now: int): Outcome
  {
    if ev.None? then Next(st, [])
    else match HandleWorker(cfg, trees, st, ev.value, now)
      case Raised(out) => Raised(out)
      case Next(s, out) =>
        var h := EmitHeartbeats(cfg, s, now);
        Next(h.state, out + h.out)
  }

  /** One iteration of the broker's `while True` loop (threads.py:71-200). */
  function Tick(cfg: Config, trees: set<TreeName>, st: State, p: Poll, now: int): Outcome
  {
    match BackendStage(cfg, trees, st, p.backend, now)
    case Raised(out) => Raised(out)
    case Next(s1, o1) =>
      var sw := SweepPending(s1, now);
      var cl := if p.frontend.Some? then HandleClient(cfg, trees, sw.state, p.frontend.value, now)
                else Step(sw.state, []);
      var out := o1 + sw.out + cl.out;
      if p.frontend.Some? && AnsweredAtOnce(cfg, p.frontend.value, now) then Next(cl.state, out)
      else
        var sv := if p.saver.Some? then HandleSaver(cl.state, p.saver.value) else Next(cl.state, []);
        match sv
        case Raised(o) => Raised(out + o)
        case Next(s4, o4) => Next(PurgeWorkers(s4, now).state, out + o4)
  }

  lemma BackendStageKeepsInv(cfg: Config, trees: set<TreeName>, st: State, ev: Option<WorkerEvent>, now: int)
    requires Inv(st) && BackendStage(cfg, trees, st, ev, now).Next?
    ensures Inv(BackendStage(cfg, trees, st, ev, now).state)
  {
    if ev.Some? {
      HandleWorkerKeepsInv(cfg, trees, st, ev.value, now);
    }
  }

  /** Every wake of the broker that does not raise keeps read/write exclusion. */
  lemma TickKeepsInv(cfg: Config, trees: set<TreeName>, st: State, p: Poll, now: int)
    requires Inv(st) && Tick(cfg, trees, st, p, now).Next?
    ensures Inv(Tick(cfg, trees, st, p, now).state)
  {
    BackendStageKeepsInv(cfg, trees, st, p.backend, now);
    var s1 := BackendStage(cfg, trees, st, p.backend, now).state;
    SweepPendingKeepsInv(s1, now);
    var s2 := SweepPending(s1, now).state;
    if p.frontend.Some? {
      HandleClientKeepsInv(cfg, trees, s2, p.frontend.value, now);
    }
    var s3 := if p.frontend.Some? then HandleClient(cfg, trees, s2, p.frontend.value, now).state else s2;
    if !(p.frontend.Some? && AnsweredAtOnce(cfg, p.frontend.value, now)) && p.saver.Some? {
      HandleSaverKeepsInv(s3, p.saver.value);
    }
  }

  /** Scenario: two writes on one tree arrive back to back with one idle
      worker; the first is dispatched and write-locks the tree, the second
      waits in the pending list. */
  lemma BackToBackWrites(cfg: Config, trees: set<TreeName>, st: State, r1: ClientRequest, r2: ClientRequest, t: TreeName, now: int)
    requires |st.workers| == 1 && t !in st.readTrees && t != ""
    requires r1.parsed == Parsed(Write, Some(t)) && r2.parsed == Parsed(Write, Some(t))
    requires Deadline(cfg, r1.timeoutMs, now) >= now && Deadline(cfg, r2.timeoutMs, now) >= now
    ensures var a := HandleClient(cfg, trees, st, r1, now);
      var b := HandleClient(cfg, trees, a.state, r2, now);
      a.out == [Job(st.workers[0].address, r1.client, r1.statement)] &&
      t in a.state.writeTrees && t in a.state.readTrees &&
      b.out == [] && b.state.mq == st.mq + [Pending(r2.client, r2.statement, t, Deadline(cfg, r2.timeoutMs, now), Write)]
  {
  }
}
