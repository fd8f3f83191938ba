/** The bounded persistence queue and its worker as a step system (persistence/async_writer.py). */
module WriteQueue {
  /** Where the worker task is: never started or cancelled, at its loop head, inside a write, or returned. */
  datatype Worker<W> = Absent | AtLoop | Writing(write: W) | Returned

  /** What became of a write taken from the queue. */
  datatype Fate<W> = Executed(write: W) | Abandoned(write: W)

  datatype State<W> = State(
    maxsize: int, queue: seq<W>, worker: Worker<W>, closed: bool, unfinished: int,
    accepted: seq<W>, fates: seq<Fate<W>>, cancels: nat)

  /** The atomic steps between two awaits. */
  datatype Action<W> = Start | Submit(write: W) | WorkerStep | Close | Cancel

  function Init<W>(maxsize: int): State<W> {
    State(maxsize, [], Absent, false, 0, [], [], 0)
  }

  /** `asyncio.Queue.full`: a size of zero or less means unbounded. */
  predicate Full<W>(s: State<W>) {
    s.maxsize > 0 && |s.queue| >= s.maxsize
  }

  /** One worker step: leave the loop, take the next write, finish the current one (an exception in the write is
      logged and counts as finished), or wait. */
  function WorkerNext<W>(s: State<W>): State<W> {
    match s.worker
    case AtLoop =>
      if s.closed && s.queue == [] then s.(worker := Returned)
      else if s.queue != [] then s.(worker := Writing(s.queue[0]), queue := s.queue[1..])
      else s
    case Writing(w) => s.(worker := AtLoop, fates := s.fates + [Executed(w)], unfinished := s.unfinished - 1)
    case _ => s
  }

  function Next<W>(s: State<W>, a: Action<W>): State<W> {
    match a
    case Start => if s.worker.Absent? then s.(worker := AtLoop) else s
    case Submit(w) =>
      if s.closed || Full(s) then s
      else s.(queue := s.queue + [w], accepted := s.accepted + [w], unfinished := s.unfinished + 1)
    case WorkerStep => WorkerNext(s)
    case Close => s.(closed := true)
    case Cancel =>
      if s.worker.Writing?
      then s.(worker := Absent, fates := s.fates + [Abandoned(s.worker.write)], unfinished := s.unfinished - 1,
              cancels := s.cancels + 1)
      else s.(worker := Absent, cancels := s.cancels + 1)
  }

  function Run<W>(s: State<W>, actions: seq<Action<W>>): State<W> {
    if actions == [] then s else Next(Run(s, actions[..|actions| - 1]), actions[|actions| - 1])
  }

  // -------------------------------------------------------------- invariant

  function InFlight<W>(s: State<W>): seq<W> {
    if s.worker.Writing? then [s.worker.write] else []
  }

  /** The accepted writes not yet dealt with: the one in flight, then the queue. */
  function Pending<W>(s: State<W>): seq<W> {
    InFlight(s) + s.queue
  }

  function Writes<W>(fates: seq<Fate<W>>): (r: seq<W>)
    ensures |r| == |fates|
  {
    seq(|fates|, i requires 0 <= i < |fates| => fates[i].write)
  }

  function AbandonedCount<W>(fates: seq<Fate<W>>): nat {
    if fates == [] then 0 else AbandonedCount(fates[..|fates| - 1]) + (if fates[|fates| - 1].Abandoned? then 1 else 0)
  }

  /** Accepted writes are, in order, those taken, the one in flight and those queued; the unfinished counter is what
      `join` waits for; the bound holds; and a write is lost only to a cancellation. */
  ghost predicate Inv<W>(s: State<W>) {
    && Writes(s.fates) + Pending(s) == s.accepted
    && s.unfinished == |Pending(s)|
    && (s.maxsize > 0 ==> |s.queue| <= s.maxsize)
    && AbandonedCount(s.fates) <= s.cancels
  }

  lemma WritesSnoc<W>(fates: seq<Fate<W>>, f: Fate<W>)
    ensures Writes(fates + [f]) == Writes(fates) + [f.write]
    ensures AbandonedCount(fates + [f]) == AbandonedCount(fates) + (if f.Abandoned? then 1 else 0)
  {
    assert (fates + [f])[..|fates|] == fates;
  }

  lemma AppendAfter<W>(a: seq<W>, b: seq<W>, w: W)
    ensures a + (b + [w]) == (a + b) + [w]
  {
  }

  lemma MoveAcross<W>(a: seq<W>, w: W, b: seq<W>)
    ensures a + ([w] + b) == (a + [w]) + b
  {
  }

  lemma SubmitKeepsInv<W>(s: State<W>, w: W)
    requires Inv(s)
    ensures Inv(Next(s, Submit(w)))
    ensures !s.closed && !Full(s) ==> Pending(Next(s, Submit(w))) == Pending(s) + [w]
  {
    if !s.closed && !Full(s) {
      AppendAfter(InFlight(s), s.queue, w);
      AppendAfter(Writes(s.fates), Pending(s), w);
    }
  }

  /** A write is accepted if and only if the queue is open and unbounded or holds fewer than maxsize writes; it then
      goes to the end, and a refused write leaves no trace. */
  lemma AcceptedIff<W>(s: State<W>, w: W)
    ensures var t := Next(s, Submit(w));
            if !s.closed && (s.maxsize <= 0 || |s.queue| < s.maxsize)
            then t.queue == s.queue + [w] && t.accepted == s.accepted + [w] && t.unfinished == s.unfinished + 1
                 && t.worker == s.worker && t.fates == s.fates && !t.closed
            else t == s
  {
  }

  function Submits<W>(ws: seq<W>): (r: seq<Action<W>>)
    ensures |r| == |ws|
  {
    seq(|ws|, i requires 0 <= i < |ws| => Submit(ws[i]))
  }

  /** How many of n writes in a row fit. */
  function Fitting<W>(s: State<W>, n: nat): (k: nat)
    ensures k <= n
  {
    if s.closed then 0
    else if s.maxsize <= 0 then n
    else if s.maxsize <= |s.queue| then 0
    else if n <= s.maxsize - |s.queue| then n
    else s.maxsize - |s.queue|
  }

  /** A burst of writes that the worker does not interrupt: as many as there is room for are accepted, the first ones,
      in order, and the rest is dropped. */
  lemma {:induction false} BurstAccepted<W>(s: State<W>, ws: seq<W>)
    ensures var t, k := Run(s, Submits(ws)), Fitting(s, |ws|);
            && t.accepted == s.accepted + ws[..k] && t.queue == s.queue + ws[..k]
            && t.unfinished == s.unfinished + k
            && t.closed == s.closed && t.maxsize == s.maxsize && t.worker == s.worker && t.fates == s.fates
    decreases |ws|
  {
    if ws == [] {
      assert Submits(ws) == [];
    } else {
      var n := |ws| - 1;
      BurstAccepted(s, ws[..n]);
      assert Submits(ws)[..n] == Submits(ws[..n]) && Submits(ws)[n] == Submit(ws[n]);
      var u, k := Run(s, Submits(ws[..n])), Fitting(s, n);
      AcceptedIff(u, ws[n]);
      assert ws[..n][..k] == ws[..k];
      if Fitting(s, |ws|) == |ws| {
        AppendAfter(s.accepted, ws[..n], ws[n]);
        AppendAfter(s.queue, ws[..n], ws[n]);
        assert ws[..n] + [ws[n]] == ws && ws[..k] == ws[..n] && ws[..|ws|] == ws;
      }
    }
  }

  /** Taking a write moves it from the queue into flight. */
  lemma TakeKeepsPending<W>(s: State<W>)
    requires s.worker.AtLoop? && s.queue != []
    ensures Pending(WorkerNext(s)) == Pending(s) == s.queue
  {
    assert [s.queue[0]] + s.queue[1..] == s.queue;
  }

  /** Finishing or abandoning the write in flight moves it to the fates. */
  lemma SettleKeepsInv<W>(s: State<W>, t: State<W>, f: Fate<W>)
    requires Inv(s) && s.worker.Writing? && f.write == s.worker.write
    requires !t.worker.Writing? && t.queue == s.queue && t.accepted == s.accepted && t.maxsize == s.maxsize
    requires t.fates == s.fates + [f] && t.unfinished == s.unfinished - 1
    requires t.cancels == s.cancels + (if f.Abandoned? then 1 else 0)
    ensures Inv(t) && Pending(s) == [f.write] + Pending(t)
  {
    WritesSnoc(s.fates, f);
    assert Pending(t) == s.queue;
    MoveAcross(Writes(s.fates), f.write, s.queue);
  }

  lemma NextKeepsInv<W>(s: State<W>, a: Action<W>)
    requires Inv(s)
    ensures Inv(Next(s, a))
  {
    var t := Next(s, a);
    match a {
      case Submit(w) => SubmitKeepsInv(s, w);
      case WorkerStep =>
        if s.worker.Writing? {
          SettleKeepsInv(s, t, Executed(s.worker.write));
        } else if s.worker.AtLoop? && s.queue != [] {
          TakeKeepsPending(s);
        } else {
          assert Pending(t) == Pending(s);
        }
      case Cancel =>
        if s.worker.Writing? {
          SettleKeepsInv(s, t, Abandoned(s.worker.write));
        } else {
          assert Pending(t) == Pending(s);
        }
      case _ =>
        assert Pending(t) == Pending(s);
    }
  }

  /** Every reachable state, under any interleaving of submitters, worker, stop and restart. */
  lemma {:induction false} ReachableInv<W>(maxsize: int, actions: seq<Action<W>>)
    ensures Inv(Run(Init(maxsize), actions))
  {
    if actions != [] {
      ReachableInv(maxsize, actions[..|actions| - 1]);
      NextKeepsInv(Run(Init(maxsize), actions[..|actions| - 1]), actions[|actions| - 1]);
    }
  }

  lemma {:induction false} NoCancelCount<W>(maxsize: int, actions: seq<Action<W>>)
    requires Cancel !in actions
    ensures Run(Init(maxsize), actions).cancels == 0
  {
    if actions != [] {
      var n := |actions| - 1;
      assert actions[n] in actions && forall a :: a in actions[..n] ==> a in actions;
      NoCancelCount(maxsize, actions[..n]);
    }
  }

  lemma {:induction false} AllExecuted<W>(fates: seq<Fate<W>>)
    requires AbandonedCount(fates) == 0
    ensures forall f :: f in fates ==> f.Executed?
  {
    if fates != [] {
      AllExecuted(fates[..|fates| - 1]);
      assert fates == fates[..|fates| - 1] + [fates[|fates| - 1]];
    }
  }

  /** Before any cancellation, `join` is released exactly when every accepted write was executed, once, in order. */
  lemma JoinMeansAllExecuted<W>(maxsize: int, actions: seq<Action<W>>)
    requires Cancel !in actions
    ensures var s := Run(Init(maxsize), actions);
            && (forall f :: f in s.fates ==> f.Executed?)
            && Writes(s.fates) <= s.accepted
            && (s.unfinished == 0 <==> Writes(s.fates) == s.accepted)
  {
    var s := Run(Init(maxsize), actions);
    ReachableInv(maxsize, actions);
    NoCancelCount(maxsize, actions);
    AllExecuted(s.fates);
    assert Writes(s.fates) <= Writes(s.fates) + Pending(s);
  }

  /** Whatever happens, the writes that are lost number at most one per cancellation. */
  lemma LossBoundedByCancels<W>(maxsize: int, actions: seq<Action<W>>)
    ensures var s := Run(Init(maxsize), actions);
            |s.accepted| == |s.fates| + s.unfinished && AbandonedCount(s.fates) <= s.cancels
  {
    ReachableInv(maxsize, actions);
    var s := Run(Init(maxsize), actions);
    assert |Writes(s.fates) + Pending(s)| == |s.fates| + |Pending(s)|;
  }

  /** Nothing is accepted after close, whatever runs later. */
  lemma {:induction false} ClosedAcceptsNothing<W>(s: State<W>, actions: seq<Action<W>>)
    requires s.closed
    ensures Run(s, actions).closed && Run(s, actions).accepted == s.accepted
    decreases |actions|
  {
    if actions != [] { ClosedAcceptsNothing(s, actions[..|actions| - 1]); }
  }

  // --------------------------------------------------------------- draining

  function WorkerSteps<W>(s: State<W>, n: nat): State<W>
    decreases n
  {
    if n == 0 then s else WorkerSteps(WorkerNext(s), n - 1)
  }

  function Tagged<W>(writes: seq<W>): (r: seq<Fate<W>>)
    ensures |r| == |writes|
  {
    seq(|writes|, i requires 0 <= i < |writes| => Executed(writes[i]))
  }

  /** The worker steps that empty the queue: two per queued write, one for a write in flight. */
  function StepsToDrain<W>(s: State<W>): nat {
    2 * |s.queue| + |InFlight(s)|
  }

  lemma TaggedCons<W>(fates: seq<Fate<W>>, w: W, rest: seq<W>)
    ensures (fates + [Executed(w)]) + Tagged(rest) == fates + Tagged([w] + rest)
  {
  }

  /** The state with everything pending executed in order. */
  function Drained<W>(s: State<W>): State<W> {
    s.(worker := AtLoop, queue := [], unfinished := 0, fates := s.fates + Tagged(Pending(s)))
  }

  lemma DrainedStep<W>(s: State<W>)
    requires s.worker.Writing? || (s.worker.AtLoop? && s.queue != [])
    ensures Drained(WorkerNext(s)) == Drained(s) && StepsToDrain(WorkerNext(s)) == StepsToDrain(s) - 1
  {
    if s.worker.Writing? {
      TaggedCons(s.fates, s.worker.write, s.queue);
      assert Pending(WorkerNext(s)) == s.queue;
    } else {
      TakeKeepsPending(s);
    }
  }

  /** A live worker drains: after exactly that many of its own steps everything accepted has been executed in order
      and the unfinished counter is zero, so `join` cannot wait for ever. */
  lemma {:induction false} WorkerDrains<W>(s: State<W>)
    requires Inv(s) && (s.worker.AtLoop? || s.worker.Writing?)
    ensures WorkerSteps(s, StepsToDrain(s)) == Drained(s)
    decreases StepsToDrain(s)
  {
    if StepsToDrain(s) == 0 {
      assert s.fates + Tagged(Pending(s)) == s.fates;
    } else {
      NextKeepsInv(s, WorkerStep);
      DrainedStep(s);
      WorkerDrains(WorkerNext(s));
    }
  }

  // --------------------------------------------------------------- stopping

  predicate Live<W>(s: State<W>) {
    s.worker.AtLoop? || s.worker.Writing?
  }

  /** `stop`: close; return at once if no worker was started; otherwise wait for the join, in which time the worker
      makes `patience` steps before the join is released or times out, and cancel the worker. */
  function Stop<W>(s: State<W>, patience: nat): State<W> {
    var c := Next(s, Close);
    if c.worker.Absent? then c else Next(WorkerSteps(c, patience), Cancel)
  }

  /** Worker steps move writes from pending to executed and change nothing else, until nothing is pending. */
  lemma {:induction false} PartlyDrained<W>(s: State<W>, n: nat)
    requires Live(s) && n <= StepsToDrain(s)
    ensures var t := WorkerSteps(s, n);
            Live(t) && Drained(t) == Drained(s) && StepsToDrain(t) == StepsToDrain(s) - n
    decreases n
  {
    if n > 0 {
      DrainedStep(s);
      PartlyDrained(WorkerNext(s), n - 1);
    }
  }

  lemma {:induction false} IdleSteps<W>(s: State<W>, n: nat)
    requires !s.worker.Writing? && (s.worker.AtLoop? ==> s.queue == [])
    ensures var t := WorkerSteps(s, n); !t.worker.Writing? && t.fates == s.fates
    decreases n
  {
    if n > 0 { IdleSteps(WorkerNext(s), n - 1); }
  }

  lemma {:induction false} StepsSplit<W>(s: State<W>, a: nat, b: nat)
    ensures WorkerSteps(s, a + b) == WorkerSteps(WorkerSteps(s, a), b)
    decreases a
  {
    if a > 0 { StepsSplit(WorkerNext(s), a - 1, b); }
  }

  /** `stop` executes everything accepted before it, in order, if and only if a live worker is given the time to drain
      the queue, or, without a live worker, nothing is queued. */
  lemma StopDeliversIff<W>(s: State<W>, patience: nat)
    ensures Stop(s, patience).fates == s.fates + Tagged(Pending(s)) <==>
            if Live(s) then patience >= StepsToDrain(s) else s.queue == []
  {
    var c := Next(s, Close);
    var all := s.fates + Tagged(Pending(s));
    if !Live(s) {
      IdleSteps(c, patience);
      assert |all| == |s.fates| + |s.queue|;
      assert s.queue == [] ==> all == s.fates;
    } else if patience >= StepsToDrain(s) {
      PartlyDrained(c, StepsToDrain(c));
      var t := WorkerSteps(c, StepsToDrain(c));
      assert t.fates + Tagged(Pending(t)) == t.fates;
      IdleSteps(t, patience - StepsToDrain(c));
      StepsSplit(c, StepsToDrain(c), patience - StepsToDrain(c));
    } else {
      PartlyDrained(c, patience);
      var t := WorkerSteps(c, patience);
      assert t.fates + Tagged(Pending(t)) == all && Pending(t) != [];
      assert all[|t.fates|] == Tagged(Pending(t))[0] && all[|t.fates|].Executed?;
    }
  }

  /** Given the time to drain, `stop` leaves no accepted write in the queue if and only if a worker is present or
      nothing is queued; and every accepted write was executed, once and in order, if moreover none was abandoned
      before. */
  lemma StopExecutesAllIff<W>(s: State<W>)
    requires Inv(s) && !s.worker.Returned?
    ensures var t := Stop(s, StepsToDrain(s));
            && (Writes(t.fates) == s.accepted <==> !s.worker.Absent? || s.queue == [])
            && (t.fates == Tagged(s.accepted) <==>
                AbandonedCount(s.fates) == 0 && (!s.worker.Absent? || s.queue == []))
  {
    StopDeliversIff(s, StepsToDrain(s));
    var t := Stop(s, StepsToDrain(s));
    assert Writes(s.fates + Tagged(Pending(s))) == Writes(s.fates) + Pending(s);
    assert |t.fates| == |Writes(t.fates)| && |Tagged(s.accepted)| == |s.accepted|;
    if s.worker.Absent? && s.queue != [] {
      assert |Writes(t.fates)| < |s.accepted|;
    } else {
      NoneAbandoned(s.fates);
      TaggedPrefix(s.fates, Writes(s.fates), Pending(s));
    }
  }

  /** No write was abandoned exactly when the fates are the tagged writes. */
  lemma {:induction false} NoneAbandoned<W>(fates: seq<Fate<W>>)
    ensures AbandonedCount(fates) == 0 <==> fates == Tagged(Writes(fates))
  {
    if fates != [] {
      var front, last := fates[..|fates| - 1], fates[|fates| - 1];
      assert fates == front + [last];
      NoneAbandoned(front);
      WritesSnoc(front, last);
      TaggedPrefix(front, Writes(front), [last.write]);
      assert front + Tagged([last.write]) == fates <==> last.Executed?;
      if fates == Tagged(Writes(fates)) {
        assert Tagged(Writes(fates))[..|front|] == Tagged(Writes(front));
        assert Tagged(Writes(fates))[|front|] == Executed(last.write);
      }
    }
  }

  lemma TaggedPrefix<W>(fates: seq<Fate<W>>, writes: seq<W>, more: seq<W>)
    requires |fates| == |writes|
    ensures fates + Tagged(more) == Tagged(writes + more) <==> fates == Tagged(writes)
  {
    assert Tagged(writes + more) == Tagged(writes) + Tagged(more);
    assert (fates + Tagged(more))[..|fates|] == fates;
    assert (Tagged(writes) + Tagged(more))[..|writes|] == Tagged(writes);
  }

  /** The failing case: a write accepted before the worker was started stays queued, with no worker to take it. */
  lemma StopWithoutWorkerKeepsWrites<W>(w: W, patience: nat)
    ensures var s := Run(Init(1), [Submit(w)]);
            s.accepted == [w] && Stop(s, patience).queue == [w] && Stop(s, patience).fates == []
  {
    assert [Submit(w)][..0] == [];
    assert Run(Init(1), [Submit(w)]) == Next(Init(1), Submit(w));
    assert [] + [w] == [w];
  }

  // ---------------------------------------------------------------- the class

  class AsyncWriteQueue<W> {
    const maxsize: int
    var queue: seq<W>
    var worker: Worker<W>
    var closed: bool
    var unfinished: int
    /** History of the queue: what was accepted and what became of it. */
    var accepted: seq<W>
    var fates: seq<Fate<W>>
    var cancels: nat

    constructor (size: int)
      ensures Value() == Init(size)
    {
      maxsize := size;
      queue, worker, closed, unfinished, accepted, fates, cancels := [], Absent, false, 0, [], [], 0;
    }

    function Value(): State<W>
      reads this
    {
      State(maxsize, queue, worker, closed, unfinished, accepted, fates, cancels)
    }

    method StartWorker()
      modifies this
      ensures Value() == Next(old(Value()), Start)
    {
      if worker.Absent? {
        worker := AtLoop;
      }
    }

    method SubmitWrite(w: W)
      modifies this
      ensures Value() == Next(old(Value()), Submit(w))
    {
      if closed {
        return;
      }
      // put_nowait raises QueueFull, which drops the write
      if maxsize > 0 && |queue| >= maxsize {
        return;
      }
      queue, accepted, unfinished := queue + [w], accepted + [w], unfinished + 1;
    }

    method CloseQueue()
      modifies this
      ensures Value() == Next(old(Value()), Close)
    {
      closed := true;
    }

    method CancelWorker()
      modifies this
      ensures Value() == Next(old(Value()), Cancel)
    {
      if worker.Writing? {
        // the write is cut short, but its task_done still runs
        fates, unfinished := fates + [Abandoned(worker.write)], unfinished - 1;
      }
      worker, cancels := Absent, cancels + 1;
    }

    method TakeWrite()
      requires worker.AtLoop? && queue != []
      modifies `worker, `queue
      ensures Value() == WorkerNext(old(Value()))
    {
      worker, queue := Writing(queue[0]), queue[1..];
    }

    method FinishWrite()
      requires worker.Writing?
      modifies `fates, `unfinished, `worker
      ensures Value() == WorkerNext(old(Value()))
    {
      fates, unfinished, worker := fates + [Executed(worker.write)], unfinished - 1, AtLoop;
    }

    /** One step of the worker, on an open or a closed queue. */
    method WorkerTurn()
      modifies this
      ensures Value() == WorkerNext(old(Value()))
    {
      if worker.Writing? {
        FinishWrite();
      } else if worker.AtLoop? && queue != [] {
        TakeWrite();
      } else if worker.AtLoop? && closed {
        worker := Returned;
      }
    }

    /** `stop` */
    method StopQueue(patience: nat)
      modifies this
      ensures Value() == Stop(old(Value()), patience)
    {
      CloseQueue();
      if worker.Absent? {
        return;
      }
      ghost var c := Value();
      for i := 0 to patience
        invariant WorkerSteps(c, patience) == WorkerSteps(Value(), patience - i)
      {
        WorkerTurn();
      }
      CancelWorker();
    }

    /** The worker loop, run until it returns, on a closed queue, or has nothing to do but wait, on an open one:
        everything queued is executed, in order. */
    method RunWorker()
      requires Inv(Value()) && worker.AtLoop?
      modifies this
      ensures Value() == Drained(old(Value())).(worker := if closed then Returned else AtLoop)
      ensures closed == old(closed) && Inv(Value()) && Writes(fates) == accepted
    {
      hide Inv, Tagged;
      while !closed || queue != []
        invariant Inv(Value()) && worker.AtLoop? && closed == old(closed)
        invariant Drained(Value()) == Drained(old(Value()))
        decreases |queue|
      {
        if queue == [] {
          break;
        }
        ghost var s := Value();
        NextKeepsInv(s, WorkerStep);
        NextKeepsInv(WorkerNext(s), WorkerStep);
        DrainedStep(s);
        DrainedStep(WorkerNext(s));
        TakeWrite();
        FinishWrite();
      }
      NothingPending(Value());
      if closed {
        worker := Returned;
      }
    }
  }

  lemma NothingPending<W>(s: State<W>)
    requires Inv(s) && s.worker.AtLoop? && s.queue == []
    ensures Drained(s) == s && Writes(s.fates) == s.accepted && Inv(s.(worker := Returned))
  {
    assert s.fates + Tagged(Pending(s)) == s.fates;
    assert Writes(s.fates) + Pending(s) == Writes(s.fates);
  }
}
