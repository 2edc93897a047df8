# scallionDB routing core and client statement builder, in Dafny

This project models two parts of scallionDB, an in-memory store of named JSON
trees served over message sockets.

The first part is the routing core in `src/python/scallionDB/routing/threads.py`:

- **The broker loop** (`BrokerThread.run`). Every request passes through it.
  It owns five pieces of state. The worker queue lists the idle workers. The
  pending list holds requests that cannot run yet. The lock table is made of
  `readTrees` and `writeTrees`. `readTrees` is a list with one entry per
  in-flight operation or flush. `writeTrees` is the set of trees with an
  in-flight write or flush. The per-tree `saveCounter` counts completed
  writes, so that a tree is flushed to disk once every `saveLimit` writes.
- **The worker loop.** It streams a list result as a JSON array in chunks,
  sends the reply frames of one job, and keeps the liveness and reconnect
  counters of its poll loop.
- **The saver.** It dumps a tree to `<tree>.tmp`, moves that file over
  `<tree>.tree`, and always answers with the order it received.
- **The loader.** At start-up it issues one `LOAD` request per `*.tree` file
  and counts the answers.

The second part is the client library's `Tree` in `pyscallion/tree.py`. It
checks its arguments and assembles the wire statement for `GET`, `PUT`,
`DELETE`, `LOAD` and `SAVE`.

How the modules are laid out:

- `Wire` holds the shared types. `BrokerSpec` holds the broker as pure
  transitions over a `State` value. A transition that would raise an uncaught
  Python exception, such as `list.remove` of a missing element, yields
  `Raised`, because that ends the broker thread.
- `BrokerThread.Broker` is a class with the broker's fields. It has one method
  per event. In every wake that does not raise, each method is proved to
  perform exactly the matching `BrokerSpec` transition and to keep `Valid()`.
  The raising case is `BrokerSpec`'s `Raised`, characterised by
  `HandleWorkerRaisesIff`. The headline invariant is read/write
  exclusion: a tree in `writeTrees` has exactly one entry in `readTrees`, and
  the worker queue holds each address at most once.
- `WorkerThread`, `SaverThread` and `LoaderThread` model the other threads.
  Loops become methods with invariants, and the counters become a class.
- `TreeClient` models the statement builder as pure functions. Each function
  returns the statement, or the exception class and the reason it raises.

Where the code's behaviour is surprising, the model follows the code:

- The client deadline subtracts `EXPECTED_PERFORMANCE × BEAT_LIVENESS`, not
  the heartbeat interval times the liveness count.
- The heartbeat emission is nested inside the worker-socket branch.
- After a parse failure or a tree-less request, the `continue` also skips
  that wake's saver message and the worker purge.
- A worker restores its liveness only on a job or a `HEARTBEAT`. Any other
  message resets only the reconnect interval.
- A worker that gives up leaves its loop before the heartbeat check.
- The loader counts only successful answers, so it does not return once
  every load is answered. This is listed under Findings.
- The client handler compares the absolute deadline with zero rather than
  with the clock, so a request whose deadline has already passed is still
  dispatched. This is listed under Findings. The broker model uses the
  comparison with the clock.

All times are integer milliseconds, and `now` is one reading of the clock
per wake. Several inputs are parameters of the model:

- the set of existing tree names (`self.trees`);
- the allowed references (`tree_references`, `references`);
- `json.dumps`, as a function that may fail (with an opaque traceback text in the worker);
- the outcome of the request parser;
- the result of evaluating a job;
- the fragments a tree breaker yields;
- the success of the file-system steps;
- the folder listing.

## Model

| member | source | states |
|---|---|---|
| `BrokerSpec.RemoveFirst` | src/python/scallionDB/routing/threads.py:83 | `list.remove` takes away exactly one occurrence of the tree (multiset minus one); the result is unchanged when the tree is absent (the callers treat that case as a raise) |
| `BrokerSpec.AcquireKeepsExclusive` | src/python/scallionDB/routing/threads.py:129-138 | dispatching under the guard (a write needs the tree absent from `readTrees`, a read needs it absent from `writeTrees`) keeps exclusion and adds exactly one entry for the tree |
| `BrokerSpec.ReleaseKeepsExclusive` | src/python/scallionDB/routing/threads.py:82-85 | removing one entry of the tree and its write lock keeps exclusion and lowers its entry count by one |
| `BrokerSpec.ReleaseReadKeepsExclusive` | src/python/scallionDB/routing/threads.py:108-109 | removing one read entry of an unlocked tree keeps exclusion |
| `BrokerSpec.Without` | src/python/scallionDB/routing/threads.py:88-90 | the worker queue without one address holds exactly the entries of other addresses, in their original order (a subsequence), and stays duplicate-free |
| `BrokerSpec.Ready` | src/python/scallionDB/routing/threads.py:88-90 | `workers.ready`: the announcing worker goes last with expiry `now + EXPECTED_PERFORMANCE × BEAT_LIVENESS`; its properties are stated by `ReadyKeepsDistinct` |
| `BrokerSpec.ReadyKeepsDistinct` | src/python/scallionDB/routing/threads.py:88-90 | `workers.ready` puts the announcing worker last, drops any older entry for it, keeps every other idle worker in its original order before it (`Without`), and keeps addresses distinct |
| `BrokerSpec.Purge` | src/python/scallionDB/routing/threads.py:200 | `workers.purge` keeps exactly the workers whose expiry has not passed, in queue order (a subsequence), duplicate-free |
| `BrokerSpec.HandleWorker` | src/python/scallionDB/routing/threads.py:76-109 | the worker-socket handler for MESSAGE, FAILURE, COMPLETE and READY frames, raising where `list.remove` or `set.remove` would; what it does is stated by the lemmas below, from `HandleWorkerRaisesIff` to `PartialForwards` |
| `BrokerSpec.HandleWorkerRaisesIff` | src/python/scallionDB/routing/threads.py:78-109 | under the invariant, a worker message kills the broker exactly when it ends an operation on a tree with no in-flight entry |
| `BrokerSpec.HandleWorkerKeepsInv` | src/python/scallionDB/routing/threads.py:74-109 | READY, MESSAGE, FAILURE and COMPLETE handling keeps read/write exclusion and a duplicate-free worker queue |
| `BrokerSpec.WriteCompleteOnLiveTree` | src/python/scallionDB/routing/threads.py:100-107 | a completed write on an existing tree adds one to its counter; at `saveLimit` the job goes to the saver and both lock structures stay; below it, one entry and the write lock are released; other counters, the workers and the pending list stay |
| `BrokerSpec.WriteCompleteOnDroppedTree` | src/python/scallionDB/routing/threads.py:96-99 | a completed write on a tree no longer in the store drops its counter and releases the lock fully; other counters, the workers and the pending list stay |
| `BrokerSpec.ReadComplete` | src/python/scallionDB/routing/threads.py:108-109 | a completed read removes exactly one entry; write locks, counters, workers and pending list stay |
| `BrokerSpec.FailureReleases` | src/python/scallionDB/routing/threads.py:81-86 | FAILURE forwards the error, removes one entry and any write lock of the tree, and leaves the counters, the workers and the pending list alone |
| `BrokerSpec.PartialForwards` | src/python/scallionDB/routing/threads.py:79-80 | a MESSAGE frame is forwarded verbatim to its client and changes no state |
| `BrokerSpec.EmitHeartbeats` | src/python/scallionDB/routing/threads.py:113-117 | once the heartbeat deadline is reached, one heartbeat per idle worker (`HeartbeatsToEach`) and the deadline moves one interval past the clock; before it, nothing |
| `BrokerSpec.HeartbeatsToEach` | src/python/scallionDB/routing/threads.py:114-116 | one heartbeat goes to each idle worker, in queue order |
| `BrokerSpec.SweepOne` | src/python/scallionDB/routing/threads.py:123-142 | one iteration of the pending scan: an expired message gets TIMEOUT; otherwise, with an idle worker and the guard allowing it, a job with the head worker and the lock taken; otherwise the message stays. The scan's properties are stated by the `Sweep…` lemmas |
| `BrokerSpec.SweepPending` | src/python/scallionDB/routing/threads.py:120-144 | the whole pending sweep, the kept messages replacing the list; stated by `SweepKeepsOrder`, `SweepTimesOutExpired`, `SweepAccounts`, `FatesCoverUnexpired` and `SweepPendingKeepsInv` |
| `BrokerSpec.SweepKeepsOrder` | src/python/scallionDB/routing/threads.py:120-144 | the messages left in the pending list are unexpired and keep their original relative order |
| `BrokerSpec.SweepTimesOutExpired` | src/python/scallionDB/routing/threads.py:123-127 | exactly the expired messages get a TIMEOUT reply, in list order |
| `BrokerSpec.AccountsStep` | src/python/scallionDB/routing/threads.py:123-142 | one scan step extends the account by the message's fate: a sent message adds one job for the next worker, one read entry and, for a write, the write lock; a staying one is appended to the kept list |
| `BrokerSpec.SweepAccounts` | src/python/scallionDB/routing/threads.py:122-142 | after any prefix of the scan: every scanned message gets one action or stays; the kept list is exactly the messages whose fate is to stay; the jobs are, in order, `Job(w_k, client, statement)` of the sent messages with `w_k` the successive heads of the worker queue, which loses exactly as many workers; the read entries grow by the sent trees as a multiset and the write locks by the sent writes' trees |
| `BrokerSpec.WithFateInUnexpired` | src/python/scallionDB/routing/threads.py:123-142 | the sent messages, and likewise the staying ones, are in list order drawn from the unexpired messages |
| `BrokerSpec.FatesCoverUnexpired` | src/python/scallionDB/routing/threads.py:123-142 | sent and staying messages split the unexpired messages: each is an ordered subsequence of them and together they number as many |
| `BrokerSpec.SweepWithoutWorkers` | src/python/scallionDB/routing/threads.py:128-144 | with no idle worker the sweep only drops the expired messages and leaves the locks alone |
| `BrokerSpec.SweepKeepsInv` | src/python/scallionDB/routing/threads.py:129-138 | every prefix of the scan keeps exclusion and a duplicate-free worker queue |
| `BrokerSpec.SweepPendingKeepsInv` | src/python/scallionDB/routing/threads.py:120-144 | the whole sweep keeps the invariant |
| `BrokerSpec.Deadline` | src/python/scallionDB/routing/threads.py:149-153 | the absolute deadline: the timeout frame minus `EXPECTED_PERFORMANCE × BEAT_LIVENESS` plus the clock, or `EXPECTED_PERFORMANCE` plus the clock without that frame; used by `ExpiredOnArrival` and `ClientQueued` |
| `BrokerSpec.Admit` | src/python/scallionDB/routing/threads.py:158-192 | what the handler does with a request it has not timed out: FAILURE, the tree listing, a dispatch under the guard, or a place at the end of the pending list; stated by `AnsweredWithoutDispatch`, `ClientDispatched`, `ClientDispatchGuard` and `ClientQueued` |
| `BrokerSpec.HandleClientAsWritten` | src/python/scallionDB/routing/threads.py:146-192 | as written: TIMEOUT only for a deadline below zero, otherwise `Admit`; `PastDeadlineDispatchedAsWritten` shows what that lets through |
| `BrokerSpec.HandleClient` | src/python/scallionDB/routing/threads.py:146-192 | corrected: TIMEOUT for a deadline before the clock, otherwise `Admit`; stated by the lemmas from `HandleClientKeepsInv` to `ClientQueued` |
| `BrokerSpec.HandleClientKeepsInv` | src/python/scallionDB/routing/threads.py:172-189 | handling a client request keeps the invariant |
| `BrokerSpec.ExpiredOnArrival` | src/python/scallionDB/routing/threads.py:149-157 | corrected: a request whose deadline is already before the clock gets TIMEOUT; no worker is engaged, nothing is queued and the state is unchanged |
| `BrokerSpec.PastDeadlineDispatchedAsWritten` | src/python/scallionDB/routing/threads.py:149-157 | as written, a request whose deadline has passed but is not negative is sent to an idle worker when the guard allows it, where the corrected handler answers TIMEOUT |
| `BrokerSpec.ZeroTimeoutDispatchedAsWritten` | src/python/scallionDB/routing/threads.py:149-157 | with `EXPECTED_PERFORMANCE` 1000, `BEAT_LIVENESS` 3, clock 1000000 and a zero timeout, the deadline is 997000; the handler as written sends a job, the corrected one answers TIMEOUT |
| `BrokerSpec.AnsweredWithoutDispatch` | src/python/scallionDB/routing/threads.py:159-171 | a request that fails to parse gets FAILURE with the detail, one naming no tree gets the tree listing; locks, pending list and workers unchanged |
| `BrokerSpec.ClientDispatched` | src/python/scallionDB/routing/threads.py:172-189 | a request naming a tree, before its deadline, with an idle worker and the guard allowing it, is sent at once to the head worker; the queue loses that worker, `readTrees` gains one entry, a write takes the lock, and nothing else changes. With `ClientDispatchGuard` and `ClientQueued` this is dispatch if and only if a worker is idle and the guard allows it |
| `BrokerSpec.ClientDispatchGuard` | src/python/scallionDB/routing/threads.py:172-189 | a job is sent only if a worker is idle and the guard allows it; it takes the head worker, adds exactly one entry and, for a write, the write lock |
| `BrokerSpec.ClientQueued` | src/python/scallionDB/routing/threads.py:180-192 | an undispatchable request naming a tree is appended at the end of the pending list with its deadline; nothing else changes |
| `BrokerSpec.HandleSaver` | src/python/scallionDB/routing/threads.py:194-199 | corrected: the saver's reply releases the tree it names; stated by `SaverReleases` and `HandleSaverKeepsInv` |
| `BrokerSpec.HandleSaverAsWritten` | src/python/scallionDB/routing/threads.py:194-199 | as written: the release uses the stale `tree` variable; stated by `StaleSaverNameKeepsLock` and `StaleSaverNameRaises` |
| `BrokerSpec.SaverReleases` | src/python/scallionDB/routing/threads.py:194-199 | the saver's reply removes the named tree from `readTrees` and `writeTrees`, sets its counter to 0, and keeps the invariant |
| `BrokerSpec.HandleSaverKeepsInv` | src/python/scallionDB/routing/threads.py:194-199 | the saver handler keeps the invariant whenever it does not raise |
| `BrokerSpec.StaleSaverNameKeepsLock` | src/python/scallionDB/routing/threads.py:196-199 | releasing the stale `tree` leaves the flushed tree write-locked, where releasing `treename` frees it |
| `BrokerSpec.StaleSaverNameRaises` | src/python/scallionDB/routing/threads.py:196-199 | releasing the stale `tree` raises (ending the broker thread) where releasing `treename` does not |
| `BrokerSpec.BackendStage` | src/python/scallionDB/routing/threads.py:72-117 | the worker branch: the handler, then the heartbeat emission nested in it; a raise ends the wake; stated by `BackendStageKeepsInv` |
| `BrokerSpec.Tick` | src/python/scallionDB/routing/threads.py:72-200 | one wake in source order: worker branch, pending sweep, client request, then saver reply and worker purge, both skipped when the client was answered at once; stated by `TickKeepsInv` |
| `BrokerSpec.BackendStageKeepsInv` | src/python/scallionDB/routing/threads.py:74-117 | the worker branch with its nested heartbeat emission keeps the invariant |
| `BrokerSpec.TickKeepsInv` | src/python/scallionDB/routing/threads.py:71-200 | every wake of the loop that does not raise keeps read/write exclusion |
| `BrokerSpec.BackToBackWrites` | src/python/scallionDB/routing/threads.py:172-181 | two writes on one tree with one idle worker: the first is dispatched and write-locks the tree, the second waits at the end of the pending list |
| `BrokerThread.Broker.constructor` | src/python/scallionDB/routing/threads.py:65-69 | the loop starts with no workers, no pending messages, no locks, and the first heartbeat one interval away |
| `BrokerThread.Broker.OnWorker` | src/python/scallionDB/routing/threads.py:74-109 | updates the fields in place exactly as `HandleWorker` prescribes and keeps `Valid()` |
| `BrokerThread.Broker.OnFailure` | src/python/scallionDB/routing/threads.py:81-86 | a FAILURE frame performs exactly the `HandleWorker` transition: the error goes to the client and the tree is released; `Valid()` is kept |
| `BrokerThread.Broker.Release` | src/python/scallionDB/routing/threads.py:83-85 | removes one entry of the tree from `readTrees` and the tree from `writeTrees`, changes nothing else, and keeps `Valid()` |
| `BrokerThread.Broker.OnComplete` | src/python/scallionDB/routing/threads.py:93-109 | a COMPLETE frame performs exactly the `HandleWorker` transition (counter, saver hand-off or release) and keeps `Valid()` |
| `BrokerThread.Broker.Beat` | src/python/scallionDB/routing/threads.py:113-117 | once the deadline is reached, heartbeats every idle worker in order and reschedules; otherwise does nothing |
| `BrokerThread.Broker.Sweep` | src/python/scallionDB/routing/threads.py:120-144 | the in-place scan and removal performs exactly `SweepPending` and keeps `Valid()` |
| `BrokerThread.Broker.OnClient` | src/python/scallionDB/routing/threads.py:146-192 | performs exactly `HandleClient`, keeps `Valid()`, and reports whether the wake ends early |
| `BrokerThread.Broker.OnSaver` | src/python/scallionDB/routing/threads.py:194-199 | performs exactly `HandleSaver` (the release of the named tree) and keeps `Valid()` |
| `BrokerThread.Broker.PurgeExpired` | src/python/scallionDB/routing/threads.py:200 | drops the expired workers and keeps `Valid()` |
| `BrokerThread.Broker.RunOnce` | src/python/scallionDB/routing/threads.py:71-200 | one wake, in source order, performs exactly `Tick` and keeps `Valid()` |
| `WorkerThread.Chunks` | src/python/scallionDB/routing/threads.py:259-269 | the frames sent while an element's fragments are taken, followed by what is left accumulated, spell the starting text followed by every fragment; each frame sent is longer than `chunksize` |
| `WorkerThread.Stream` | src/python/scallionDB/routing/threads.py:253-274 | the frames, concatenated, are `[`, the elements' fragment texts joined by `,`, and `]`; zero elements give exactly `[` and `]`; one frame per element plus the brackets plus one per flush, and every flush inside the fragment loop is longer than `chunksize` |
| `WorkerThread.Execute` | src/python/scallionDB/routing/threads.py:246-294 | a job yields MESSAGE frames for its client and then COMPLETE with the tree, or, when the evaluation raised or `json.dumps` of a non-GET list result raised, exactly one FAILURE with that error and the tree; the payloads are the streamed array (GET on a list), the serialised list, or the value |
| `WorkerThread.AfterMessage` | src/python/scallionDB/routing/threads.py:296-300 | after a message the reconnect interval is reset and the liveness is restored, except for frames that are neither a job nor a heartbeat; stated through `Liveness.Poll` and `LivenessStaysInRange` |
| `WorkerThread.AfterSilence` | src/python/scallionDB/routing/threads.py:301-311 | after a silent poll the liveness counts down to zero, then each further silent poll pauses for the interval and doubles it, giving up once the interval reached `INTERVAL_MAX`; stated by `SilenceCountsDown` and `GivesUpAfterPollsLeft` |
| `WorkerThread.SilenceCountsDown` | src/python/scallionDB/routing/threads.py:301-311 | each silent poll lowers the polls left by one, and the worker gives up exactly when one is left |
| `WorkerThread.GivesUpAfterPollsLeft` | src/python/scallionDB/routing/threads.py:300-311 | with a positive interval, the worker gives up after exactly `max(liveness-1,0) + doublings + 1` silent polls in a row, and not before |
| `WorkerThread.FreshWorkerGivesUp` | src/python/scallionDB/routing/threads.py:231-311 | from the initial counters, the worker gives up after `BEAT_LIVENESS-1` polls that bring liveness down to one, then one poll per doubling of the interval up to `INTERVAL_MAX` (the first of them is the poll that reaches zero), and the poll that gives up |
| `WorkerThread.NeverGivesUpWithoutInterval` | src/python/scallionDB/routing/threads.py:308-311 | a zero interval never reaches a positive maximum and every pause is zero-length, so the worker never gives up |
| `WorkerThread.LivenessStaysInRange` | src/python/scallionDB/routing/threads.py:296-302 | liveness stays between 0 and `BEAT_LIVENESS` across messages and silent polls |
| `WorkerThread.Liveness.constructor` | src/python/scallionDB/routing/threads.py:231-234 | liveness starts at `BEAT_LIVENESS`, the interval at `INTERVAL_INIT`, the heartbeat one interval away |
| `WorkerThread.Liveness.Poll` | src/python/scallionDB/routing/threads.py:238-315 | a message resets the counters as `AfterMessage` says; silence counts down as `AfterSilence` says, possibly with a pause or giving up; a heartbeat goes out iff the worker stays and the clock passed the deadline |
| `SaverThread.Flush` | src/python/scallionDB/routing/threads.py:343-352 | dumps to `<tree>.tmp` then moves it to `<tree>.tree`; succeeds iff the tree exists and both steps succeed; the reply is always the order received |
| `SaverThread.ScratchIsNotFinal` | src/python/scallionDB/routing/threads.py:344-347 | the scratch file is never the final file |
| `SaverThread.TreePathInjective` | src/python/scallionDB/routing/threads.py:347 | different relative tree names are flushed to different files |
| `LoaderThread.TreeNameOf` | src/python/scallionDB/routing/threads.py:379 | the tree name of a file is its part before the first `.tree`; stated by `LoadsAreForTreeFiles` and `SavedTreeLoadsBack` |
| `LoaderThread.LoadFor` | src/python/scallionDB/routing/threads.py:379-381 | the request for one file: `LOAD name path` with the folder-joined path and timeout `1000000`; stated by `LoadMatchesClient` |
| `LoaderThread.LoadsFor` | src/python/scallionDB/routing/threads.py:377-381 | one request per listed file ending in `.tree`, in listing order, never more requests than files; stated by `Issue` and `LoadsAreForTreeFiles` |
| `LoaderThread.Issue` | src/python/scallionDB/routing/threads.py:377-383 | sends one `LOAD name path` request with timeout `1000000` per file ending in `.tree`, in listing order, and counts them |
| `LoaderThread.LoadsAreForTreeFiles` | src/python/scallionDB/routing/threads.py:378-381 | every request is for a listed `.tree` file, naming the part before its first `.tree` and the file's path |
| `LoaderThread.LoadMatchesClient` | src/python/scallionDB/routing/threads.py:380-381 | the loader's statement is the one the client library's `loadTree` builds for that name and path |
| `LoaderThread.SavedTreeLoadsBack` | src/python/scallionDB/routing/threads.py:379-381 | a tree the saver wrote to `<tree>.tree` is loaded back under its own name from that path, if `.tree` does not occur in the name |
| `LoaderThread.Await` | src/python/scallionDB/routing/threads.py:384-398 | as written: returns at the first poll where the successful three-frame answers reach the number issued, and never otherwise |
| `LoaderThread.LoaderHangsAfterFailure` | src/python/scallionDB/routing/threads.py:390-398 | if each load is answered at most once and one fails, the loader as written never returns |
| `LoaderThread.OneFailedLoadHangs` | src/python/scallionDB/routing/threads.py:390-398 | one tree file whose load fails: the loader as written does not return |
| `LoaderThread.AwaitAcknowledged` | src/python/scallionDB/routing/threads.py:384-398 | corrected: counts successes and failures and returns at the first poll where all issued loads are answered |
| `LoaderThread.AcknowledgedReturns` | src/python/scallionDB/routing/threads.py:384-398 | when every issued load is answered once, success or failure, the corrected loader returns |
| `Wire.JoinSpace` | pyscallion/tree.py:44-45 | `' '.join` of the statement tokens; undone word by word by `TreeClient.WordsOfJoin` |
| `Wire.PathJoin` | src/python/scallionDB/routing/threads.py:344-347 | `os.path.join` of a folder and a name: the name always ends the result; an absolute name replaces the folder; a relative one follows the folder, with one `/` inserted only when the folder is non-empty and does not end in one |
| `TreeClient.Upper` | pyscallion/tree.py:26 | `reference.upper()`: same length, each ASCII lower-case letter mapped to upper case and every other character kept |
| `TreeClient.DefaultReferenceGetTree` | pyscallion/tree.py:25-46 | a call that leaves the reference at its default `SELF` is accepted when `SELF` is allowed and sends `GET TREE name SELF selector` |
| `TreeClient.SelectorText` | pyscallion/tree.py:29-42 | a selector is accepted iff it is a dict, or a list whose elements are all dicts, and it serialises; otherwise SyntaxError with the reason (wrong type, non-dict element, invalid JSON) |
| `TreeClient.FirstReserved` | pyscallion/tree.py:201-205 | finds the first reserved name, in checking order, that the list contains; none iff it contains none |
| `TreeClient.AttributeText` | pyscallion/tree.py:68-77 | `*` passes through; anything else that is not a list is a SyntaxError; a list is accepted iff it holds no reserved name, only strings, and serialises; a reserved name raises Exception whatever the other elements |
| `TreeClient.GetTree` | pyscallion/tree.py:25-46 | a reference whose upper case is not in `tree_references` is rejected first; accepted iff reference and selector pass; statement `GET TREE name REF selector` |
| `TreeClient.GetAttrs` | pyscallion/tree.py:48-81 | the reference is checked first against `references`; accepted iff reference, selector and attribute list pass, with only `_children` reserved; statement `GET ATTR name REF selector attrs` |
| `TreeClient.PutTree` | pyscallion/tree.py:83-113 | the reference is checked first; a payload tree that is not a dict is a SyntaxError; statement `PUT TREE name REF selector tree` |
| `TreeClient.PutAttrs` | pyscallion/tree.py:115-150 | the reference is checked first; a non-dict is a SyntaxError, a dict with key `_id` or `_children` raises Exception; statement `PUT ATTR name REF selector attrs` |
| `TreeClient.DelTree` | pyscallion/tree.py:152-175 | the reference is checked first against `tree_references`; statement `DELETE TREE name REF selector` |
| `TreeClient.DelAttrs` | pyscallion/tree.py:177-214 | the reference is checked first; accepted iff the attribute list passes with both `_children` and `_id` reserved; statement `DELETE ATTR name REF selector attrs` |
| `TreeClient.LoadTree` | pyscallion/tree.py:216-219 | `LOAD name path`, with no validation |
| `TreeClient.SaveTree` | pyscallion/tree.py:221-223 | `SAVE name`, with no validation |
| `TreeClient.WordsOfJoin` | pyscallion/tree.py:44-45 | the space-join of tokens is undone word by word for as many leading tokens as contain no space |
| `TreeClient.GetTreeHeader` | pyscallion/tree.py:44-45 | an accepted getTree statement reads back as `GET`, `TREE`, the name, the upper-cased reference, then the selector text |
| `TreeClient.GetAttrsHeader` | pyscallion/tree.py:79-80 | an accepted getAttrs statement reads back as `GET`, `ATTR`, name, reference, then selector and attribute texts |
| `TreeClient.PutTreeHeader` | pyscallion/tree.py:111-112 | an accepted putTree statement reads back as `PUT`, `TREE`, name, reference, then selector and tree texts |
| `TreeClient.PutAttrsHeader` | pyscallion/tree.py:148-149 | an accepted putAttrs statement reads back as `PUT`, `ATTR`, name, reference, then selector and attribute texts |
| `TreeClient.DelTreeHeader` | pyscallion/tree.py:172-173 | an accepted delTree statement reads back as `DELETE`, `TREE`, name, reference, then the selector text |
| `TreeClient.DelAttrsHeader` | pyscallion/tree.py:211-212 | an accepted delAttrs statement reads back as `DELETE`, `ATTR`, name, reference, then selector and attribute texts |
| `TreeClient.EmptyListSelects` | pyscallion/tree.py:34-36 | the empty list is a valid selector (`all([])` is true) |
| `TreeClient.GetAttrsReservedNames` | pyscallion/tree.py:71-76 | getAttrs rejects `_children` with Exception even when other elements are not strings, lets `_id` through, and otherwise rejects non-strings with SyntaxError |
| `TreeClient.DelAttrsReservedNames` | pyscallion/tree.py:201-208 | delAttrs rejects `_children`, then `_id`, with Exception, before it looks at element types |
| `TreeClient.StarPassesThrough` | pyscallion/tree.py:68-80 | `*` is sent unserialised as the last token of getAttrs and delAttrs |

## Left out

- ZeroMQ machinery is not modelled: the sockets, the poller, the multipart envelopes, socket options and identities. Frames decoded by their count and status tag become the tagged variants of `Wire`.
- Threads and their real concurrency are not modelled. The broker is modelled one wake at a time, and the other threads as sequential procedures, with no interleavings.
- `parse_request`, `evaluate`, `treebreaker` and `json.dumps` are foreign code. They are inputs: the parse outcome, the evaluation result, the fragments per element and a partial serialiser.
- `send_request` (zclient) is not part of this model. The client methods return the statement instead of sending it.
- `units` (Worker, WorkerQueue, Message) is not part of this model. The worker queue is modelled as a duplicate-free sequence:
  - `ready` moves the worker to the back with expiry `now + EXPECTED_PERFORMANCE × BEAT_LIVENESS`;
  - `next` takes the head;
  - `purge` keeps the workers whose expiry has not passed.
- `saveCounter` is modelled as a `collections.Counter`: a missing tree counts 0, and deleting a missing tree is harmless.
- The values in `constants` are not part of this model. The status tags are named, not valued, and the allowed references are parameters.
- File-system I/O (`os.listdir`, `tree.dump`, `shutil.move`) is not modelled. Only the paths and whether each step succeeds are kept.
- `WorkerThread.AfterSilence`: a negative reconnect interval makes `time.sleep` raise at the pause (threads.py:306), which ends the worker thread. The model returns the negative pause instead, so `NeverGivesUpWithoutInterval` is stated for a zero interval only.
- Floating-point time, `time.sleep`, `gc.collect`, logging and `traceback.format_exc` are not modelled. Time is integer milliseconds, a sleep is returned as its length, and an error's text is an opaque string.
- The random identities of the worker, saver and loader sockets are not modelled. Addresses are opaque strings.
- `WorkerThread.Execute`: an exception raised by the evaluation or by `json.dumps` is modelled, but one raised mid-stream, after frames were already sent, is not. The source would send a FAILURE after partial frames.
- `BrokerSpec.HandleClient`: the timeout frame of a `ClientRequest` is already an integer. The source converts it with `int()` outside the `try` (threads.py:150), so a frame that is not an integer raises there and ends the broker thread; the model does not capture that crash.
- `TreeClient.Upper`: upper-cases ASCII letters only, where `str.upper` also maps other Unicode letters.
- `TreeClient.Value` has string keys only. Non-string dict keys and non-string names or references, which Python would reject with a TypeError, are not modelled.
- `descTree` always raises and is outside this model.
- The whole-store round trip (a flushed tree loads back equal) is modelled only for names and paths (`LoaderThread.SavedTreeLoadsBack`). Tree contents belong to the evaluation code.

## Findings

| source | as written | input that shows it | evidently intended | confidence | as-written member | corrected member |
|---|---|---|---|---|---|---|
| src/python/scallionDB/routing/threads.py:196-199 | the saver reply binds `treename` but releases `tree`, left over from an earlier worker or client event | `readTrees = ["a","b"]`, `writeTrees = {"a","b"}`, saver reply for `"a"` while `tree == "b"`: `"a"` stays locked forever; with `writeTrees = {"a"}` the `writeTrees.remove` raises and ends the broker | release the tree named in the reply | not executed | `BrokerSpec.StaleSaverNameKeepsLock` | `BrokerSpec.SaverReleases` |
| src/python/scallionDB/routing/threads.py:390-398 | the loader counts only successful answers and returns when that count equals the number issued | one `.tree` file whose LOAD fails: the FAILURE answer is not counted, and the loader polls forever | count every answer, success or failure, and return once all are answered | not executed | `LoaderThread.LoaderHangsAfterFailure` | `LoaderThread.AwaitAcknowledged` |
| src/python/scallionDB/routing/threads.py:149-157 | the absolute deadline (timeout plus the clock) is compared with `0`, so it is never negative for a non-negative timeout | `EXPECTED_PERFORMANCE` 1000, `BEAT_LIVENESS` 3, clock 1000000, timeout frame `0`, one idle worker, no locks: the deadline 997000 has passed, yet a job is sent | compare the deadline with the clock, as the pending sweep does, and answer TIMEOUT | not executed | `BrokerSpec.PastDeadlineDispatchedAsWritten` | `BrokerSpec.ExpiredOnArrival` |
