/** The worker side of threads.py: the chunked streaming of a list result
    as a JSON array (WorkerThread.run, threads.py:253-274), the frames a
    worker sends back for one job (threads.py:246-294), and the liveness and
    reconnect-interval counters of its poll loop (threads.py:229-315). */
module WorkerThread {
  import opened Wire

  /** Strings joined by ','. */
  function JoinComma(xs: seq<string>): string
  {
    if |xs| == 0 then ""
    else if |xs| == 1 then xs[0]
    else JoinComma(xs[..|xs| - 1]) + "," + xs[|xs| - 1]
  }

  /** The text of each element: its fragments concatenated in order. */
  function Texts(elements: seq<seq<string>>): (r: seq<string>)
    ensures |r| == |elements|
    ensures forall k :: 0 <= k < |elements| ==> r[k] == Concat(elements[k])
  {
    if |elements| == 0 then []
    else Texts(elements[..|elements| - 1]) + [Concat(elements[|elements| - 1])]
  }

  /** The JSON array a client reassembles from the streamed frames. */
  function ArrayText(elements: seq<seq<string>>): string
  {
    "[" + JoinComma(Texts(elements)) + "]"
  }

  /** What has been streamed once the first k elements are done: the
      opening bracket, their texts, and the separator the next element
      will be prefixed with. */
  function StreamedBefore(elements: seq<seq<string>>, k: nat): string
    requires k <= |elements|
  {
    if k == 0 then "[" else "[" + JoinComma(Texts(elements[..k])) + ","
  }

  lemma StreamedNext(elements: seq<seq<string>>, k: nat)
    requires k < |elements|
    ensures StreamedBefore(elements, k) + Concat(elements[k]) + "," == StreamedBefore(elements, k + 1)
  {
    var xs := Texts(elements[..k + 1]);
    assert xs[..k] == Texts(elements[..k]) by {
      assert elements[..k + 1][..k] == elements[..k];
    }
    assert xs[k] == Concat(elements[k]);
  }

  lemma FragmentStep(breaker: seq<string>, j: nat, base: string, text: string, get: string)
    requires j < |breaker|
    requires text + get == base + Concat(breaker[..j])
    ensures text + (get + breaker[j]) == base + Concat(breaker[..j + 1])
  {
    assert breaker[..j + 1] == breaker[..j] + [breaker[j]];
    ConcatAppend(breaker[..j], breaker[j]);
    calc {
      text + (get + breaker[j]);
      (text + get) + breaker[j];
      (base + Concat(breaker[..j])) + breaker[j];
      base + (Concat(breaker[..j]) + breaker[j]);
    }
  }

  lemma StreamedStep(elements: seq<seq<string>>, k: nat, before: string, get: string, sent: string, rest: string)
    requires k < |elements|
    requires before + get == StreamedBefore(elements, k)
    requires sent + rest == get + Concat(elements[k])
    ensures (before + sent) + rest + "," == StreamedBefore(elements, k + 1)
  {
    StreamedNext(elements, k);
    Regroup(before, get, sent, rest, Concat(elements[k]));
  }

  /** Moving the split point between what was sent and what is left. */
  lemma Regroup(before: string, get: string, sent: string, rest: string, text: string)
    requires sent + rest == get + text
    ensures (before + sent) + rest + "," == (before + get) + text + ","
  {
    calc {
      (before + sent) + rest + ",";
      before + (sent + rest) + ",";
      before + (get + text) + ",";
      (before + get) + text + ",";
    }
  }

  /** The frame positions lo, lo+1, ..., hi-1. */
  ghost function Range(lo: nat, hi: nat): (r: set<nat>)
    requires lo <= hi
    ensures |r| == hi - lo
    ensures forall i :: i in r <==> lo <= i < hi
    decreases hi - lo
  {
    if lo == hi then {} else {lo} + Range(lo + 1, hi)
  }

  /** Appending the frames of one element keeps the bookkeeping of the
      frames flushed so far. */
  lemma FramesStep(prior: seq<string>, sent: seq<string>, rest: string, flushes: set<nat>, added: set<nat>, chunksize: int)
    requires |prior| > 0
    requires forall i :: i in flushes ==> 0 < i < |prior| && |prior[i]| > chunksize
    requires forall i :: 0 <= i < |sent| ==> |sent[i]| > chunksize
    requires added == Range(|prior|, |prior| + |sent|)
    ensures var frames := prior + sent + [rest];
      Concat(frames) == (Concat(prior) + Concat(sent)) + rest &&
      |frames| == |prior| + |sent| + 1 && frames[0] == prior[0] &&
      |flushes + added| == |flushes| + |sent| &&
      forall i :: i in flushes + added ==> 0 < i < |frames| && |frames[i]| > chunksize
  {
    var frames := prior + sent + [rest];
    ConcatJoin(prior, sent);
    ConcatAppend(prior + sent, rest);
    assert flushes !! added;
    forall i | i in flushes + added
      ensures 0 < i < |frames| && |frames[i]| > chunksize
    {
      if i in flushes {
        assert frames[i] == prior[i];
      } else {
        assert frames[i] == sent[i - |prior|];
      }
    }
  }

  /** The fragment loop of one element (threads.py:259-269). Before each
      fragment is taken, an accumulator grown beyond chunksize is sent as a
      frame of its own and emptied; what is accumulated when the fragments
      run out is returned. */
  method Chunks(breaker: seq<string>, chunksize: int, start: string) returns (sent: seq<string>, get: string)
    ensures Concat(sent) + get == start + Concat(breaker)
    ensures forall i :: 0 <= i < |sent| ==> |sent[i]| > chunksize
  {
    sent, get := [], start;
    var j := 0;
    var exhausted := false;
    while !exhausted
      invariant 0 <= j <= |breaker|
      invariant exhausted ==> j == |breaker|
      invariant Concat(sent) + get == start + Concat(breaker[..j])
      invariant forall i :: 0 <= i < |sent| ==> |sent[i]| > chunksize
      decreases |breaker| - j, if exhausted then 0 else 1
    {
      if |get| > chunksize {
        ConcatAppend(sent, get);
        sent := sent + [get];
        assert Concat(sent) + "" == Concat(sent);
        get := "";
      }
      if j < |breaker| {
        FragmentStep(breaker, j, start, Concat(sent), get);
        get := get + breaker[j];
        j := j + 1;
      } else {
        exhausted := true;
      }
    }
    assert breaker[..j] == breaker;
  }

  /** The GET branch for a list result (threads.py:255-274). Each element is
      given as the fragments its tree breaker yields. After each element
      whatever is accumulated is sent and the next element starts from ",".
      The ghost result names the positions of the frames flushed inside the
      fragment loop. */
  method Stream(elements: seq<seq<string>>, chunksize: int) returns (frames: seq<string>, ghost flushes: set<nat>)
    ensures Concat(frames) == ArrayText(elements)
    ensures |frames| == |elements| + 2 + |flushes|
    ensures frames[0] == "[" && frames[|frames| - 1] == "]"
    ensures forall i :: i in flushes ==> 0 < i < |frames| - 1 && |frames[i]| > chunksize
    ensures elements == [] ==> frames == ["[", "]"]
  {
    frames := ["["];
    flushes := {};
    var get := "";
    var k := 0;
    while k < |elements|
      invariant 0 <= k <= |elements|
      invariant Concat(frames) + get == StreamedBefore(elements, k)
      invariant get == (if k == 0 then "" else ",")
      invariant |frames| == 1 + k + |flushes|
      invariant frames[0] == "["
      invariant k == 0 ==> frames == ["["]
      invariant forall i :: i in flushes ==> 0 < i < |frames| && |frames[i]| > chunksize
    {
      var sent, rest := Chunks(elements[k], chunksize, get);
      ghost var added := Range(|frames|, |frames| + |sent|);
      FramesStep(frames, sent, rest, flushes, added, chunksize);
      StreamedStep(elements, k, Concat(frames), get, Concat(sent), rest);
      frames := frames + sent + [rest];
      flushes := flushes + added;
      get := ",";
      k := k + 1;
    }
    ClosingBracket(elements, frames, get);
    frames := frames + ["]"];
  }

  /** After the last element, the pending "," is dropped and "]" closes the
      array. */
  lemma ClosingBracket(elements: seq<seq<string>>, frames: seq<string>, get: string)
    requires Concat(frames) + get == StreamedBefore(elements, |elements|)
    requires get == (if |elements| == 0 then "" else ",")
    ensures Concat(frames + ["]"]) == ArrayText(elements)
  {
    ConcatAppend(frames, "]");
    if |elements| > 0 {
      assert elements[..|elements|] == elements;
      var body := "[" + JoinComma(Texts(elements));
      assert Concat(frames) + "," == body + ",";
      assert Concat(frames) == (Concat(frames) + ",")[..|body|] == body;
    }
  }

  /** What evaluating a statement produced: a list (the result of a
      selector), any other value (already text), or an exception. */
  datatype Evaluated = Listed(elements: seq<seq<string>>) | Single(text: string) | Error(detail: string)

  /** The MESSAGE frames carrying the given payloads to a client. */
  function Partials(me: Address, client: Address, payloads: seq<string>): (r: seq<WorkerEvent>)
    ensures |r| == |payloads|
    ensures forall i :: 0 <= i < |r| ==> r[i] == Partial(me, client, payloads[i])
  {
    seq(|payloads|, i requires 0 <= i < |payloads| => Partial(me, client, payloads[i]))
  }

  /** The payloads of the MESSAGE frames among some events. */
  function Payloads(events: seq<WorkerEvent>): (r: seq<string>)
    ensures |r| == |events|
  {
    seq(|events|, i requires 0 <= i < |events| => if events[i].Partial? then events[i].payload else "")
  }

  lemma PayloadsOfPartials(me: Address, client: Address, payloads: seq<string>)
    ensures Payloads(Partials(me, client, payloads)) == payloads
  {
  }

  /** What json.dumps makes of a list result: its text, or the traceback of
      the exception it raised. */
  datatype Serialised = Text(text: string) | DumpFailed(trace: string)

  /** The error a job ends with, if any: the evaluation's, or that of
      serialising a list result outside a GET (both inside the same try). */
  function JobError(isGet: bool, result: Evaluated, dumps: seq<seq<string>> -> Serialised): Option<string>
  {
    if result.Error? then Some(result.detail)
    else if result.Listed? && !isGet && dumps(result.elements).DumpFailed? then Some(dumps(result.elements).trace)
    else None
  }

  /** The frames a worker sends for one job (threads.py:250-294): MESSAGE
      frames with the output, then COMPLETE naming the tree, or, when the
      evaluation or the serialisation raised, a single FAILURE frame with the
      error and the tree. A list result is streamed for a GET and sent as one
      serialised frame otherwise; dumps stands for json.dumps. */
  method Execute(me: Address, client: Address, tree: TreeName, isGet: bool, result: Evaluated,
                 chunksize: int, dumps: seq<seq<string>> -> Serialised)
    returns (sent: seq<WorkerEvent>)
    ensures |sent| >= 1
    ensures forall i :: 0 <= i < |sent| - 1 ==> sent[i].Partial? && sent[i].worker == me && sent[i].client == client
    ensures JobError(isGet, result, dumps).Some? ==> sent == [Failed(me, client, JobError(isGet, result, dumps).value, tree)]
    ensures JobError(isGet, result, dumps).None? ==> sent[|sent| - 1] == Completed(me, client, tree)
    ensures result.Single? ==> Payloads(sent[..|sent| - 1]) == [result.text]
    ensures result.Listed? && !isGet && dumps(result.elements).Text? ==>
      Payloads(sent[..|sent| - 1]) == [dumps(result.elements).text]
    ensures result.Listed? && isGet ==> Concat(Payloads(sent[..|sent| - 1])) == ArrayText(result.elements)
    ensures result.Listed? && isGet && result.elements == [] ==> Payloads(sent[..|sent| - 1]) == ["[", "]"]
  {
    var payloads: seq<string>;
    match result {
      case Error(detail) =>
        return [Failed(me, client, detail, tree)];
      case Single(text) =>
        payloads := [text];
      case Listed(elements) =>
        if isGet {
          ghost var flushed;
          payloads, flushed := Stream(elements, chunksize);
        } else {
          match dumps(elements) {
            case DumpFailed(trace) =>
              return [Failed(me, client, trace, tree)];
            case Text(text) =>
              payloads := [text];
          }
        }
    }
    var body := Partials(me, client, payloads);
    PayloadsOfPartials(me, client, payloads);
    sent := body + [Completed(me, client, tree)];
    assert sent[..|sent| - 1] == body;
  }

  /** What arrives on the worker socket: a job (three frames), a heartbeat
      (one HEARTBEAT frame), or anything else. */
  datatype Incoming = JobFrames | HeartbeatFrame | OtherFrames

  /** The two counters of the poll loop. */
  datatype Counters = Counters(liveness: int, interval: int)

  /** A message resets the interval; a job or a heartbeat also restores
      liveness (threads.py:296-299). */
  function AfterMessage(c: Counters, msg: Incoming, beatLiveness: int, intervalInit: int): Counters
  {
    Counters(if msg == OtherFrames then c.liveness else beatLiveness, intervalInit)
  }

  /** The outcome of a poll that timed out: the new counters, the pause before
      reconnecting, and whether the worker gives up. */
  datatype Silence = Silence(next: Counters, sleep: Option<int>, quit: bool)

  /** A silent poll (threads.py:301-311): liveness drops by one, never below
      zero; at zero the worker sleeps for the interval, then doubles it while
      it is below the maximum and gives up once it is not. */
  function AfterSilence(c: Counters, intervalMax: int): Silence
  {
    var l := if c.liveness - 1 > 0 then c.liveness - 1 else 0;
    if l == 0 then
      if c.interval < intervalMax then Silence(Counters(0, c.interval * 2), Some(c.interval), false)
      else Silence(Counters(0, c.interval), Some(c.interval), true)
    else Silence(Counters(l, c.interval), None, false)
  }

  /** How often a positive interval doubles before it reaches intervalMax. */
  function Doublings(interval: int, intervalMax: int): nat
    requires interval > 0
    decreases intervalMax - interval
  {
    if interval >= intervalMax then 0 else 1 + Doublings(interval * 2, intervalMax)
  }

  /** The number of silent polls, counted from the counters c, after which the
      worker gives up. */
  function PollsLeft(c: Counters, intervalMax: int): nat
    requires c.interval > 0
  {
    (if c.liveness - 1 > 0 then c.liveness - 1 else 0) + Doublings(c.interval, intervalMax) + 1
  }

  /** Each silent poll takes one off PollsLeft, and the worker gives up
      exactly when PollsLeft is one. */
  lemma SilenceCountsDown(c: Counters, intervalMax: int)
    requires c.interval > 0
    ensures AfterSilence(c, intervalMax).quit <==> PollsLeft(c, intervalMax) == 1
    ensures !AfterSilence(c, intervalMax).quit ==>
              AfterSilence(c, intervalMax).next.interval > 0 &&
              PollsLeft(AfterSilence(c, intervalMax).next, intervalMax) == PollsLeft(c, intervalMax) - 1
  {
  }

  /** n silent polls in a row from c end the worker at the n-th and not
      before. */
  predicate QuitsAfter(c: Counters, intervalMax: int, n: nat)
    decreases n
  {
    n >= 1 &&
    var s := AfterSilence(c, intervalMax);
    if s.quit then n == 1 else QuitsAfter(s.next, intervalMax, n - 1)
  }

  /** With a positive reconnect interval the worker gives up after exactly
      PollsLeft silent polls: liveness - 1 polls bring liveness down to one;
      from the next poll on, liveness is zero and every poll pauses, first
      one per doubling of the interval and then the one that gives up. */
  lemma {:induction false} GivesUpAfterPollsLeft(c: Counters, intervalMax: int)
    requires c.interval > 0
    ensures QuitsAfter(c, intervalMax, PollsLeft(c, intervalMax))
    decreases PollsLeft(c, intervalMax)
  {
    SilenceCountsDown(c, intervalMax);
    var s := AfterSilence(c, intervalMax);
    if !s.quit {
      GivesUpAfterPollsLeft(s.next, intervalMax);
    }
  }

  /** From the initial counters the number of silent polls before the worker
      gives up is beatLiveness - 1 (at least zero), plus the doublings, plus one. */
  lemma FreshWorkerGivesUp(beatLiveness: int, intervalInit: int, intervalMax: int)
    requires intervalInit > 0
    ensures QuitsAfter(Counters(beatLiveness, intervalInit), intervalMax,
                       (if beatLiveness > 1 then beatLiveness - 1 else 0) + Doublings(intervalInit, intervalMax) + 1)
  {
    GivesUpAfterPollsLeft(Counters(beatLiveness, intervalInit), intervalMax);
  }

  /** With a zero interval below a positive maximum the interval never
      grows, every pause is zero-length, and the worker never gives up. */
  lemma NeverGivesUpWithoutInterval(c: Counters, intervalMax: int)
    requires c.interval == 0 < intervalMax
    ensures !AfterSilence(c, intervalMax).quit
    ensures AfterSilence(c, intervalMax).next.interval == 0
    ensures AfterSilence(c, intervalMax).sleep.Some? ==> AfterSilence(c, intervalMax).sleep.value == 0
  {
  }

  /** Silent polls never drive liveness below zero, and messages only ever set
      it to beatLiveness. */
  lemma LivenessStaysInRange(c: Counters, msg: Option<Incoming>, beatLiveness: int, intervalInit: int, intervalMax: int)
    requires 0 <= c.liveness <= beatLiveness
    ensures var n := if msg.Some? then AfterMessage(c, msg.value, beatLiveness, intervalInit)
                     else AfterSilence(c, intervalMax).next;
            0 <= n.liveness <= beatLiveness
  {
  }

  /** The poll-loop state of one worker (threads.py:231-234). */
  class Liveness {
    const beatInterval: int
    const beatLiveness: int
    const intervalInit: int
    const intervalMax: int
    var liveness: int
    var interval: int
    var heartbeatAt: int

    function Counts(): Counters
      reads this
    {
      Counters(liveness, interval)
    }

    constructor (hi: int, hl: int, init: int, max: int, now: int)
      ensures beatInterval == hi && beatLiveness == hl && intervalInit == init && intervalMax == max
      ensures Counts() == Counters(hl, init) && heartbeatAt == now + hi
    {
      beatInterval, beatLiveness, intervalInit, intervalMax := hi, hl, init, max;
      liveness := hl;
      interval := init;
      heartbeatAt := now + hi;
    }

    /** One pass of the loop body (threads.py:238-315). After a message (the
        job itself is Execute) the counters are reset; after a silent poll
        they count down, possibly with a pause and possibly giving up, which
        leaves the loop before the heartbeat check. A heartbeat goes out once
        the clock passed heartbeatAt. `now` is the clock as read at the
        heartbeat check (threads.py:312-313), that is after any pause the
        silent branch took; the source reads the clock twice there, and the
        model takes both readings to be equal. */
    method Poll(msg: Option<Incoming>, now: int) returns (sleep: Option<int>, quit: bool, beat: bool)
      modifies this
      ensures msg.Some? ==> Counts() == AfterMessage(old(Counts()), msg.value, beatLiveness, intervalInit) && sleep.None? && !quit
      ensures msg.None? ==> Silence(Counts(), sleep, quit) == AfterSilence(old(Counts()), intervalMax)
      ensures beat <==> !quit && now > old(heartbeatAt)
      ensures heartbeatAt == if beat then now + beatInterval else old(heartbeatAt)
    {
      sleep, quit, beat := None, false, false;
      if msg.Some? {
        if msg.value != OtherFrames {
          liveness := beatLiveness;
        }
        interval := intervalInit;
      } else {
        liveness := liveness - 1;
        liveness := if liveness > 0 then liveness else 0;
        if liveness == 0 {
          sleep := Some(interval);
          if interval < intervalMax {
            interval := interval * 2;
          } else {
            quit := true;
            return;
          }
        }
      }
      if now > heartbeatAt {
        heartbeatAt := now + beatInterval;
        beat := true;
      }
    }
  }
}
