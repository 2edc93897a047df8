/** BrokerThread.run of threads.py as an object: the state the loop keeps in
    local variables and in saveCounter becomes fields, and each branch of the
    loop becomes a method that updates them in place and returns the
    actions it emits. Each method is proved against the matching transition
    of BrokerSpec and keeps read/write exclusion. */
module BrokerThread {
  import opened Wire
  import opened BrokerSpec

  class Broker {
    const cfg: Config
    var workers: seq<Worker>
    var mq: seq<Pending>
    var readTrees: seq<TreeName>
    var writeTrees: set<TreeName>
    var saveCounter: map<TreeName, int>
    var heartbeatAt: int

    function Snapshot(): State
      reads this
    {
      State(workers, mq, readTrees, writeTrees, saveCounter, heartbeatAt)
    }

    predicate Valid()
      reads this
    {
      Inv(Snapshot())
    }

    /** The start of run (threads.py:65-69): empty queues and locks. */
    constructor (config: Config, counters: map<TreeName, int>, now: int)
      ensures Valid() && cfg == config
      ensures Snapshot() == State([], [], [], {}, counters, now + config.beatInterval)
    {
      cfg := config;
      workers, mq, readTrees, writeTrees := [], [], [], {};
      saveCounter := counters;
      heartbeatAt := now + config.beatInterval;
    }

    /** A message on the worker socket (threads.py:76-109). */
    method OnWorker(trees: set<TreeName>, ev: WorkerEvent, now: int) returns (out: seq<Action>)
      requires Valid()
      requires (ev.Failed? || ev.Completed?) ==> ev.tree in readTrees
      modifies this
      ensures Valid()
      ensures HandleWorker(cfg, trees, old(Snapshot()), ev, now) == Next(Snapshot(), out)
    {
      ghost var st := Snapshot();
      match ev {
        case Partial(w, c, payload) =>
          out := [Reply(c, Message, [payload])];
        case Failed(w, c, detail, t) =>
          out := OnFailure(trees, w, c, detail, t, now);
        case Completed(w, c, t) =>
          out := OnComplete(trees, w, c, t, now);
        case Alive(w) =>
          HandleWorkerKeepsInv(cfg, trees, st, ev, now);
          workers := Ready(cfg, workers, w, now);
          out := [];
      }
    }

    /** A FAILURE frame (threads.py:81-86): one entry of the tree and its
        write lock, if any, are released and the error goes to the client. */
    method OnFailure(trees: set<TreeName>, w: Address, c: Address, detail: string, t: TreeName, now: int)
      returns (out: seq<Action>)
      requires Valid()
      requires t in readTrees
      modifies this
      ensures Valid()
      ensures HandleWorker(cfg, trees, old(Snapshot()), Failed(w, c, detail, t), now) == Next(Snapshot(), out)
    {
      Release(t);
      out := [Reply(c, Failure, [detail])];
    }

    /** readTrees.remove(tree), then the write lock of the tree is dropped
        if it holds one (threads.py:83-85, 98-99, 106-107). */
    method Release(t: TreeName)
      requires Valid()
      requires t in readTrees
      modifies this
      ensures Valid()
      ensures Snapshot() == old(Snapshot()).(readTrees := RemoveFirst(old(readTrees), t),
                                             writeTrees := old(writeTrees) - {t})
    {
      ReleaseKeepsExclusive(readTrees, writeTrees, t);
      readTrees := RemoveFirst(readTrees, t);
      if t in writeTrees {
        writeTrees := writeTrees - {t};
      }
      assert writeTrees == old(writeTrees) - {t};
    }

    /** A COMPLETE frame (threads.py:93-109): the client is told, and the
        tree's entry is released, except that a write that reaches the save
        limit keeps the tree locked and goes to the saver. */
    method OnComplete(trees: set<TreeName>, w: Address, c: Address, t: TreeName, now: int) returns (out: seq<Action>)
      requires Valid()
      requires t in readTrees
      modifies this
      ensures Valid()
      ensures HandleWorker(cfg, trees, old(Snapshot()), Completed(w, c, t), now) == Next(Snapshot(), out)
    {
      out := [Reply(c, Complete, [])];
      if t in writeTrees {
        if t !in trees {
          saveCounter := saveCounter - {t};
          Release(t);
        } else {
          saveCounter := saveCounter[t := Counter(saveCounter, t) + 1];
          if saveCounter[t] >= cfg.saveLimit {
            out := out + [ToSaver(FlushJob(w, c, t))];
          } else {
            Release(t);
          }
        }
      } else {
        ReleaseReadKeepsExclusive(readTrees, writeTrees, t);
        readTrees := RemoveFirst(readTrees, t);
      }
    }

    /** Heartbeats to every idle worker once the deadline is reached
        (threads.py:113-117). */
    method Beat(now: int) returns (out: seq<Action>)
      requires Valid()
      modifies this
      ensures Valid()
      ensures EmitHeartbeats(cfg, old(Snapshot()), now) == Step(Snapshot(), out)
    {
      out := [];
      if now >= heartbeatAt {
        var i := 0;
        while i < |workers|
          invariant 0 <= i <= |workers|
          invariant out == HeartbeatsTo(workers[..i])
        {
          assert workers[..i + 1][..i] == workers[..i];
          out := out + [Heartbeat(workers[i].address)];
          i := i + 1;
        }
        assert workers[..i] == workers;
        heartbeatAt := now + cfg.beatInterval;
      }
    }

    /** The scan over the pending list (threads.py:120-144): expired messages
        get TIMEOUT, dispatchable ones go to a worker, the rest stay. */
    method Sweep(now: int) returns (out: seq<Action>)
      requires Valid()
      modifies this
      ensures Valid()
      ensures SweepPending(old(Snapshot()), now) == Step(Snapshot(), out)
    {
      ghost var st := Snapshot();
      var kept: seq<Pending> := [];
      out := [];
      var i := 0;
      while i < |mq|
        invariant 0 <= i <= |mq|
        invariant mq == st.mq && saveCounter == st.saveCounter && heartbeatAt == st.heartbeatAt
        invariant SweepUpTo(mq, i, now, SweepStart(st)) == SweepAcc(kept, out, workers, readTrees, writeTrees)
      {
        var m := mq[i];
        if now > m.expiry {
          out := out + [Reply(m.client, Timeout, [ResourcesBusy])];
        } else if |workers| > 0 && (if m.kind == Write then m.tree !in readTrees else m.tree !in writeTrees) {
          if m.kind == Write {
            writeTrees := writeTrees + {m.tree};
          }
          readTrees := readTrees + [m.tree];
          var w := workers[0];
          workers := workers[1..];
          out := out + [Job(w.address, m.client, m.statement)];
        } else {
          kept := kept + [m];
        }
        i := i + 1;
      }
      mq := kept;
      SweepPendingKeepsInv(st, now);
    }

    /** A request on the client socket (threads.py:148-192). The second
        result says that the request was answered at once and the wake ends
        here. */
    method OnClient(trees: set<TreeName>, req: ClientRequest, now: int) returns (out: seq<Action>, answered: bool)
      requires Valid()
      modifies this
      ensures Valid()
      ensures HandleClient(cfg, trees, old(Snapshot()), req, now) == Step(Snapshot(), out)
      ensures answered == AnsweredAtOnce(cfg, req, now)
    {
      ghost var st := Snapshot();
      var deadline := if req.timeoutMs.Some? then req.timeoutMs.value - cfg.expectedPerformance * cfg.beatLiveness + now
                      else cfg.expectedPerformance + now;
      assert deadline == Deadline(cfg, req.timeoutMs, now);
      HandleClientKeepsInv(cfg, trees, st, req, now);
      answered := false;
      if deadline < now {
        out := [Reply(req.client, Timeout, [ExpectedTimeout])];
      } else {
        match req.parsed {
          case Unparsable(detail) =>
            out := [Reply(req.client, Failure, [detail])];
            answered := true;
          case Parsed(kind, tree) =>
            if tree.None? || tree.value == "" {
              out := [Listing(req.client, trees)];
              answered := true;
            } else {
              var t := tree.value;
              out := [];
              if |workers| > 0 {
                if kind == Write {
                  if t !in readTrees {
                    out := [Job(workers[0].address, req.client, req.statement)];
                    workers := workers[1..];
                    writeTrees := writeTrees + {t};
                    readTrees := readTrees + [t];
                  } else {
                    mq := mq + [Pending(req.client, req.statement, t, deadline, kind)];
                  }
                } else {
                  if t in writeTrees {
                    mq := mq + [Pending(req.client, req.statement, t, deadline, kind)];
                  } else {
                    readTrees := readTrees + [t];
                    out := [Job(workers[0].address, req.client, req.statement)];
                    workers := workers[1..];
                  }
                }
              } else {
                mq := mq + [Pending(req.client, req.statement, t, deadline, kind)];
              }
            }
        }
      }
    }

    /** The saver's reply (threads.py:195-199), releasing the tree it names. */
    method OnSaver(job: FlushJob) returns (out: seq<Action>)
      requires Valid()
      requires job.tree in writeTrees
      modifies this
      ensures Valid()
      ensures HandleSaver(old(Snapshot()), job) == Next(Snapshot(), out)
    {
      ghost var st := Snapshot();
      SaverReleases(st, job);
      var treename := job.tree;
      readTrees := RemoveFirst(readTrees, treename);
      writeTrees := writeTrees - {treename};
      saveCounter := saveCounter[treename := 0];
      out := [];
    }

    /** workers.purge() (threads.py:200). */
    method PurgeExpired(now: int)
      requires Valid()
      modifies this
      ensures Valid()
      ensures PurgeWorkers(old(Snapshot()), now) == Step(Snapshot(), [])
    {
      workers := Purge(workers, now);
    }

    /** One wake of the loop (threads.py:72-200): the worker socket with the
        heartbeat check nested in it, the sweep, the client socket, then,
        unless the request was answered at once, the saver socket and the
        purge. */
    method RunOnce(trees: set<TreeName>, p: Poll, now: int) returns (out: seq<Action>)
      requires Valid()
      requires Tick(cfg, trees, Snapshot(), p, now).Next?
      modifies this
      ensures Valid()
      ensures Tick(cfg, trees, old(Snapshot()), p, now) == Next(Snapshot(), out)
    {
      ghost var st := Snapshot();
      out := [];
      if p.backend.Some? {
        HandleWorkerRaisesIff(cfg, trees, st, p.backend.value, now);
        var o := OnWorker(trees, p.backend.value, now);
        var h := Beat(now);
        out := o + h;
      }
      assert BackendStage(cfg, trees, st, p.backend, now) == Next(Snapshot(), out);
      var s := Sweep(now);
      out := out + s;
      var answered := false;
      if p.frontend.Some? {
        var c;
        c, answered := OnClient(trees, p.frontend.value, now);
        out := out + c;
      }
      if !answered {
        if p.saver.Some? {
          var v := OnSaver(p.saver.value);
          out := out + v;
        }
        PurgeExpired(now);
      }
    }
  }
}
