/** Values exchanged between the client, the broker loop, the workers and the
    saver of the tree store. The multipart frames of the message sockets are
    replaced by tagged variants, decoded once at the channel boundary. */
module Wire {

  datatype Option<+T> = None | Some(value: T)

  /** Name of a tree in the shared tree mapping. */
  type TreeName = string

  /** Opaque routing identity of a client or a worker socket. */
  type Address = string

  /** The broker only distinguishes 'write' requests; every other request
      type is treated as a read. */
  datatype OpKind = Read | Write

  /** Status tags of the frames sent back to a client. */
  datatype Status = Message | Failure | Complete | Timeout

  /** A flush order: the frames the broker sends to the saver after a write
      completion crossed the save limit, and that the saver sends back. */
  datatype FlushJob = FlushJob(worker: Address, client: Address, tree: TreeName)

  /** Everything the broker loop emits. */
  datatype Action =
    | Reply(client: Address, status: Status, body: seq<string>)  // frames to a client
    | Listing(client: Address, names: set<TreeName>)               // NONTREE answer listing the trees
    | Job(worker: Address, client: Address, statement: string)     // a request handed to a worker
    | Heartbeat(worker: Address)                                   // heartbeat to an idle worker
    | ToSaver(job: FlushJob)                                       // flush order to the saver

  /** A message arriving on the worker-facing socket, by its status tag. */
  datatype WorkerEvent =
    | Partial(worker: Address, client: Address, payload: string)             // MESSAGE
    | Failed(worker: Address, client: Address, detail: string, tree: TreeName) // FAILURE
    | Completed(worker: Address, client: Address, tree: TreeName)            // COMPLETE
    | Alive(worker: Address)                                                 // READY, HEARTBEAT or any other tag

  /** What the external request parser extracts from a statement. */
  datatype Parsed =
    | Unparsable(detail: string)
    | Parsed(kind: OpKind, tree: Option<TreeName>)

  /** A client request: the statement, the optional millisecond timeout frame,
      and what the parser makes of the statement. */
  datatype ClientRequest = ClientRequest(client: Address, statement: string, timeoutMs: Option<int>, parsed: Parsed)

  /** Strings concatenated in order. */
  function Concat(ss: seq<string>): string
  {
    if |ss| == 0 then "" else Concat(ss[..|ss| - 1]) + ss[|ss| - 1]
  }

  lemma ConcatAppend(ss: seq<string>, s: string)
    ensures Concat(ss + [s]) == Concat(ss) + s
  {
    assert (ss + [s])[..|ss|] == ss;
  }

  lemma {:induction false} ConcatJoin(a: seq<string>, b: seq<string>)
    ensures Concat(a + b) == Concat(a) + Concat(b)
    decreases |b|
  {
    if |b| == 0 {
      assert a + b == a;
    } else {
      var init, last := b[..|b| - 1], b[|b| - 1];
      assert a + b == (a + init) + [last];
      assert b == init + [last];
      ConcatAppend(a + init, last);
      ConcatAppend(init, last);
      ConcatJoin(a, init);
      calc {
        Concat(a + b);
        Concat(a + init) + last;
        (Concat(a) + Concat(init)) + last;
        Concat(a) + (Concat(init) + last);
      }
    }
  }

  /** ' '.join of the tokens of a statement. */
  function JoinSpace(ts: seq<string>): string
  {
    if |ts| == 0 then "" else if |ts| == 1 then ts[0] else ts[0] + " " + JoinSpace(ts[1..])
  }

  /** os.path.join of two POSIX path components: the name always ends the
      path; a relative name is placed under the folder, an absolute one
      replaces it. */
  function PathJoin(folder: string, name: string): (r: string)
    ensures |name| <= |r| && r[|r| - |name|..] == name
    ensures (|name| > 0 && name[0] == '/') ==> r == name
    ensures !(|name| > 0 && name[0] == '/') ==> folder <= r && |r| <= |folder| + 1 + |name|
  {
    if |name| > 0 && name[0] == '/' then name
    else if folder == "" || folder[|folder| - 1] == '/' then folder + name
    else folder + "/" + name
  }
}
