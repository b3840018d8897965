// Live capture from native callbacks to the packet worker and through shutdown, for every
// interleaving of callbacks, worker and stopping threads. The capture backend is a flag that, once
// set, says no callback runs any more.
module LiveShutdown {

  datatype Item<P> = Packet(packet: P) | Sentinel

  /** A native callback thread: outside, or past the check of the stop request with a packet to put. */
  datatype Callback<P> = Outside | Admitted(packet: P)

  /** The packet worker: waiting for the queue (with its decoder usable or given up), or decoding. */
  datatype Worker<P> = Waiting(decodes: bool) | Decoding(packet: P) | Ended

  /** The thread inside `_finish_stop`, if any; the cleanup lock admits one. */
  datatype Stopper = Nobody | StoppingCapture | Signaling | Joining | Finishing

  datatype State<P> = State(
    callbacks: seq<Callback<P>>, capacity: nat, queue: seq<Item<P>>, worker: Worker<P>, stopper: Stopper,
    captureStopped: bool, stopRequested: bool, signaled: bool, stopped: bool,
    accepted: seq<P>, dequeued: seq<Item<P>>, decoded: seq<P>, failed: bool, overflows: nat, finishes: nat)

  datatype Action<P> =
    | Enter(thread: nat, packet: P)
    | Put(thread: nat)
    | Get
    | Decoded(ok: bool)
    | RequestStop
    | BeginStop
    | StopCapture(ok: bool)
    | Signal(timely: bool)
    | Join(timely: bool)
    | Finish

  predicate Enabled<P>(s: State<P>, a: Action<P>) {
    match a
    case Enter(t, _) => t < |s.callbacks| && s.callbacks[t].Outside? && !s.captureStopped
    case Put(t) => t < |s.callbacks| && s.callbacks[t].Admitted?
    case Get => s.worker.Waiting? && s.queue != []
    case Decoded(_) => s.worker.Decoding?
    case RequestStop => true
    case BeginStop => s.stopper.Nobody? && !s.stopped
    // The backend reports itself stopped only when none of its callbacks is running.
    case StopCapture(ok) =>
      && s.stopper.StoppingCapture? && !s.captureStopped
      && (ok ==> forall t :: 0 <= t < |s.callbacks| ==> s.callbacks[t].Outside?)
    // Without space for the sentinel the signal waits, at most until its deadline.
    case Signal(timely) => s.stopper.Signaling? && (timely ==> s.signaled || s.worker.Ended? || |s.queue| < s.capacity)
    case Join(timely) => s.stopper.Joining? && (timely <==> s.worker.Ended?)
    case Finish => s.stopper.Finishing?
  }

  function Step<P>(s: State<P>, a: Action<P>): (n: State<P>)
    requires Enabled(s, a)
  {
    match a
    case Enter(t, packet) => if s.stopRequested then s else s.(callbacks := s.callbacks[t := Admitted(packet)])
    case Put(t) =>
      if |s.queue| < s.capacity then
        var p := s.callbacks[t].packet;
        s.(callbacks := s.callbacks[t := Outside], queue := s.queue + [Packet(p)], accepted := s.accepted + [p])
      else s.(callbacks := s.callbacks[t := Outside], overflows := s.overflows + 1, stopRequested := true)
    case Get =>
      var item := s.queue[0];
      var next := s.(queue := s.queue[1..], dequeued := s.dequeued + [item]);
      if item.Sentinel? then next.(worker := Ended)
      else if s.worker.decodes then next.(worker := Decoding(item.packet), decoded := s.decoded + [item.packet])
      else next
    case Decoded(ok) => if ok then s.(worker := Waiting(true))
                        else s.(worker := Waiting(false), failed := true, stopRequested := true)
    case RequestStop => s.(stopRequested := true)
    case BeginStop => s.(stopRequested := true, stopper := if s.captureStopped then Signaling else StoppingCapture)
    case StopCapture(ok) => if ok then s.(captureStopped := true, stopper := Signaling) else s.(stopper := Nobody)
    case Signal(timely) =>
      if s.signaled || s.worker.Ended? || !timely then s.(stopper := Joining)
      else s.(queue := s.queue + [Sentinel], signaled := true, stopper := Joining)
    case Join(timely) => s.(stopper := if timely then Finishing else Nobody)
    case Finish => s.(finishes := s.finishes + 1, stopped := true, stopper := Nobody)
  }

  function Initial<P>(threads: nat, capacity: nat): State<P> {
    State(seq(threads, _ => Outside), capacity, [], Waiting(true), Nobody, false, false, false, false, [], [], [],
        false, 0, 0)
  }

  function Items<P>(packets: seq<P>): (items: seq<Item<P>>)
    ensures |items| == |packets|
  {
    seq(|packets|, (i: nat) requires i < |packets| => Packet(packets[i]))
  }

  function SentinelIf<P>(signaled: bool): seq<Item<P>> {
    if signaled then [Sentinel] else []
  }

  /** First in, first out, and the one sentinel behind every accepted packet. */
  ghost predicate Fifo<P>(s: State<P>) {
    s.dequeued + s.queue == Items(s.accepted) + SentinelIf(s.signaled)
  }

  /** The sentinel is put only once no callback runs any more. */
  ghost predicate CallbacksAreOver<P>(s: State<P>) {
    && (s.signaled || s.stopper.Signaling? || s.stopper.Joining? || s.stopper.Finishing? || s.stopped ==>
          s.captureStopped)
    && (s.captureStopped ==> forall t :: 0 <= t < |s.callbacks| ==> s.callbacks[t].Outside?)
  }

  /** The worker ends by taking the sentinel, after everything else. */
  ghost predicate WorkerEndsLast<P>(s: State<P>) {
    if s.worker.Ended? then s.signaled && s.queue == [] else |s.dequeued| <= |s.accepted|
  }

  /** Packets are decoded in the order accepted: all taken so far, or all up to the first failure. */
  ghost predicate DecodedInOrder<P>(s: State<P>) {
    && |s.decoded| <= |s.accepted| && s.decoded == s.accepted[..|s.decoded|]
    && (!s.failed ==> |s.decoded| == if s.worker.Ended? then |s.accepted| else |s.dequeued|)
    && (s.failed ==> |s.decoded| <= |s.dequeued| && s.worker != Waiting(true) && !s.worker.Decoding?)
    && (!s.failed ==> s.worker != Waiting(false))
  }

  /** `engine.finish` runs once at most, and only after capture and worker are over. */
  ghost predicate FinishIsLast<P>(s: State<P>) {
    && s.finishes == (if s.stopped then 1 else 0)
    && (s.stopped || s.stopper.Finishing? ==> s.captureStopped && s.worker.Ended?)
    && (!s.stopper.Nobody? ==> !s.stopped)
  }

  ghost predicate Sound<P>(s: State<P>) {
    Fifo(s) && CallbacksAreOver(s) && WorkerEndsLast(s) && DecodedInOrder(s) && FinishIsLast(s)
  }

  predicate Possible<P>(s: State<P>, run: seq<Action<P>>)
    decreases |run|
  {
    run == [] || (Enabled(s, run[0]) && Possible(Step(s, run[0]), run[1..]))
  }

  function After<P>(s: State<P>, run: seq<Action<P>>): State<P>
    requires Possible(s, run)
    decreases |run|
  {
    if run == [] then s else After(Step(s, run[0]), run[1..])
  }

  lemma ItemsAppend<P>(packets: seq<P>, p: P)
    ensures Items(packets + [p]) == Items(packets) + [Packet(p)]
  {
  }

  lemma StepKeepsFifo<P>(s: State<P>, a: Action<P>)
    requires Fifo(s) && CallbacksAreOver(s) && Enabled(s, a)
    ensures Fifo(Step(s, a))
  {
    if a.Put? && |s.queue| < s.capacity {
      assert !s.signaled;
      hide CallbacksAreOver;
      var p := s.callbacks[a.thread].packet;
      ItemsAppend(s.accepted, p);
      JoinsBehind(s.dequeued, s.queue, Items(s.accepted), Packet(p));
    } else if a.Get? {
      hide CallbacksAreOver;
      assert s.dequeued + [s.queue[0]] + s.queue[1..] == s.dequeued + s.queue;
    } else if a.Signal? {
      hide CallbacksAreOver;
      JoinsBehind(s.dequeued, s.queue, Items(s.accepted), Sentinel);
    }
  }

  lemma JoinsBehind<P>(taken: seq<Item<P>>, queue: seq<Item<P>>, all: seq<Item<P>>, item: Item<P>)
    ensures taken + queue == all + [] ==> taken + (queue + [item]) == all + [item]
  {
    assert taken + (queue + [item]) == taken + queue + [item];
    assert all + [] == all;
  }

  lemma StepKeepsCallbacksOver<P>(s: State<P>, a: Action<P>)
    requires CallbacksAreOver(s) && FinishIsLast(s) && Enabled(s, a)
    ensures CallbacksAreOver(Step(s, a))
  {
  }

  /** What the worker takes next: the packet accepted next, or the sentinel and then nothing more. */
  lemma NextItem<P>(s: State<P>)
    requires Fifo(s) && WorkerEndsLast(s) && !s.worker.Ended? && s.queue != []
    ensures |s.dequeued| < |s.accepted| ==> s.queue[0] == Packet(s.accepted[|s.dequeued|])
    ensures |s.dequeued| == |s.accepted| ==> s.queue == [Sentinel] && s.signaled
  {
    var all := s.dequeued + s.queue;
    assert all[|s.dequeued|] == s.queue[0] && |all| == |s.accepted| + |SentinelIf<P>(s.signaled)|;
    assert |s.dequeued| < |s.accepted| ==> all[|s.dequeued|] == Items(s.accepted)[|s.dequeued|];
  }

  lemma StepKeepsWorker<P>(s: State<P>, a: Action<P>)
    requires Sound(s) && Enabled(s, a)
    ensures WorkerEndsLast(Step(s, a)) && DecodedInOrder(Step(s, a))
  {
    hide Fifo, FinishIsLast;
    var n := Step(s, a);
    if a.Get? {
      NextItem(s);
    }
  }

  lemma StepKeepsFinish<P>(s: State<P>, a: Action<P>)
    requires Sound(s) && Enabled(s, a)
    ensures FinishIsLast(Step(s, a))
  {
    hide Fifo, DecodedInOrder;
  }

  lemma StepKeepsSound<P>(s: State<P>, a: Action<P>)
    requires Sound(s) && Enabled(s, a)
    ensures Sound(Step(s, a))
  {
    hide Fifo, CallbacksAreOver, WorkerEndsLast, DecodedInOrder, FinishIsLast, Step, Enabled;
    StepKeepsFifo(s, a);
    StepKeepsCallbacksOver(s, a);
    StepKeepsWorker(s, a);
    StepKeepsFinish(s, a);
  }

  lemma InitialIsSound<P>(threads: nat, capacity: nat)
    ensures Sound(Initial<P>(threads, capacity))
  {
  }

  lemma {:induction false} RunKeepsSound<P>(s: State<P>, run: seq<Action<P>>)
    requires Sound(s) && Possible(s, run)
    ensures Sound(After(s, run))
    decreases |run|
  {
    hide Sound, Step, Enabled;
    if run != [] {
      StepKeepsSound(s, run[0]);
      RunKeepsSound(Step(s, run[0]), run[1..]);
    }
  }

  /** Whenever `engine.finish` is about to run, on any interleaving: capture is over, the worker has
      ended, it had taken every accepted packet before the single sentinel, and it decoded them in
      order, all of them unless one failed. */
  lemma FinishSeesEverything<P>(threads: nat, capacity: nat, run: seq<Action<P>>)
    requires Possible(Initial<P>(threads, capacity), run) && Enabled(After(Initial<P>(threads, capacity), run), Finish)
    ensures var s := After(Initial<P>(threads, capacity), run);
            && s.captureStopped && s.worker.Ended? && s.finishes == 0
            && s.queue == [] && s.dequeued == Items(s.accepted) + [Sentinel]
            && s.decoded <= s.accepted && (!s.failed ==> s.decoded == s.accepted)
  {
    InitialIsSound<P>(threads, capacity);
    RunKeepsSound(Initial<P>(threads, capacity), run);
    hide Possible, After;
    var s := After(Initial<P>(threads, capacity), run);
    assert s.dequeued + s.queue == s.dequeued;
  }

  // What a full queue and a failing decoder set off.

  /** A stop was requested if a packet was ever refused for want of space or could not be decoded, or
      somebody is stopping; and the queue never holds more than it has room for. */
  ghost predicate Alarmed<P>(s: State<P>) {
    && (s.overflows > 0 || s.failed || !s.stopper.Nobody? || s.stopped ==> s.stopRequested)
    && |s.queue| <= s.capacity
  }

  lemma StepAlarms<P>(s: State<P>, a: Action<P>)
    requires Alarmed(s) && Enabled(s, a)
    ensures var n := Step(s, a); Alarmed(n) && (s.stopRequested ==> n.stopRequested)
  {
  }

  /** A packet is refused exactly if the queue is full when it is put. */
  lemma FullQueueRefuses<P>(s: State<P>, a: Action<P>)
    requires Enabled(s, a)
    ensures Step(s, a).overflows == s.overflows + if a.Put? && |s.queue| >= s.capacity then 1 else 0
  {
    match a
    case Get =>
    case Put(_) =>
    case _ =>
  }

  lemma {:induction false} RunAlarms<P>(s: State<P>, run: seq<Action<P>>)
    requires Alarmed(s) && Possible(s, run)
    ensures var n := After(s, run);
            Alarmed(n) && (s.stopRequested ==> n.stopRequested) && s.overflows <= n.overflows
    decreases |run|
  {
    hide Step, Enabled, Alarmed;
    if run != [] {
      StepAlarms(s, run[0]);
      FullQueueRefuses(s, run[0]);
      RunAlarms(Step(s, run[0]), run[1..]);
    }
  }

  lemma {:induction false} Continued<P>(s: State<P>, run: seq<Action<P>>, later: seq<Action<P>>)
    requires Possible(s, run + later)
    ensures Possible(s, run) && Possible(After(s, run), later) && After(s, run + later) == After(After(s, run), later)
    decreases |run|
  {
    hide Step, Enabled;
    if run == [] {
      assert run + later == later;
    } else {
      assert (run + later)[1..] == run[1..] + later;
      Continued(Step(s, run[0]), run[1..], later);
    }
  }

  /** Over every interleaving: an overflow or a failure requests the stop, and a request stays. */
  lemma OverflowRequestsStop<P>(threads: nat, capacity: nat, run: seq<Action<P>>, later: seq<Action<P>>)
    requires Possible(Initial<P>(threads, capacity), run + later)
    ensures Possible(Initial<P>(threads, capacity), run)
    ensures var s, n := After(Initial<P>(threads, capacity), run), After(Initial<P>(threads, capacity), run + later);
            && (s.overflows > 0 || s.failed ==> s.stopRequested) && |s.queue| <= capacity
            && (s.stopRequested ==> n.stopRequested)
  {
    Continued(Initial<P>(threads, capacity), run, later);
    RunAlarms(Initial<P>(threads, capacity), run);
    RunAlarms(After(Initial<P>(threads, capacity), run), later);
    SameCapacity(Initial<P>(threads, capacity), run);
  }

  lemma {:induction false} SameCapacity<P>(s: State<P>, run: seq<Action<P>>)
    requires Possible(s, run)
    ensures After(s, run).capacity == s.capacity
    decreases |run|
  {
    if run != [] {
      SameCapacity(Step(s, run[0]), run[1..]);
    }
  }

  /** How many callbacks are past the check with a packet to put. */
  function Inside<P>(callbacks: seq<Callback<P>>): (n: nat) {
    if callbacks == [] then 0 else (if callbacks[0].Admitted? then 1 else 0) + Inside(callbacks[1..])
  }

  /** How many packets came before any stop was requested. */
  function Admissions<P>(s: State<P>, run: seq<Action<P>>): (n: nat)
    requires Possible(s, run)
    decreases |run|
  {
    if run == [] then 0
    else (if run[0].Enter? && !s.stopRequested then 1 else 0) + Admissions(Step(s, run[0]), run[1..])
  }

  lemma {:induction false} InsideUpdate<P>(callbacks: seq<Callback<P>>, t: nat, c: Callback<P>)
    requires t < |callbacks|
    ensures Inside(callbacks[t := c]) + (if callbacks[t].Admitted? then 1 else 0) ==
            Inside(callbacks) + if c.Admitted? then 1 else 0
  {
    if t > 0 {
      assert callbacks[t := c][1..] == callbacks[1..][t - 1 := c];
      InsideUpdate(callbacks[1..], t - 1, c);
    } else {
      assert callbacks[t := c][1..] == callbacks[1..];
    }
  }

  lemma StepAccounts<P>(s: State<P>, a: Action<P>)
    requires Enabled(s, a)
    ensures var n := Step(s, a);
            |n.accepted| + n.overflows + Inside(n.callbacks) ==
            |s.accepted| + s.overflows + Inside(s.callbacks) + if a.Enter? && !s.stopRequested then 1 else 0
  {
    hide Inside;
    match a
    case Enter(t, packet) => InsideUpdate(s.callbacks, t, Admitted(packet));
    case Put(t) => InsideUpdate(s.callbacks, t, Outside);
    case _ => OthersStayInside(s, a);
  }

  lemma OthersStayInside<P>(s: State<P>, a: Action<P>)
    requires Enabled(s, a) && !a.Enter? && !a.Put?
    ensures var n := Step(s, a);
            n.accepted == s.accepted && n.overflows == s.overflows && n.callbacks == s.callbacks
  {
    match a
    case Get =>
    case Decoded(_) =>
    case RequestStop =>
    case BeginStop =>
    case StopCapture(_) =>
    case Signal(_) =>
    case Join(_) =>
    case Finish =>
  }

  /** No packet disappears between the network and the queue: each one that came before a stop was
      requested is accepted, counted as an overflow, or about to be put. */
  lemma {:induction false} EveryPacketIsAccounted<P>(s: State<P>, run: seq<Action<P>>)
    requires Possible(s, run)
    ensures var n := After(s, run);
            |n.accepted| + n.overflows + Inside(n.callbacks) ==
            |s.accepted| + s.overflows + Inside(s.callbacks) + Admissions(s, run)
    decreases |run|
  {
    hide Step, Enabled, Inside;
    if run != [] {
      StepAccounts(s, run[0]);
      EveryPacketIsAccounted(Step(s, run[0]), run[1..]);
    }
  }

  /** After a stop was requested no further packet comes in. */
  lemma {:induction false} NothingEntersAfterStop<P>(s: State<P>, run: seq<Action<P>>)
    requires s.stopRequested && Possible(s, run)
    ensures Admissions(s, run) == 0
    decreases |run|
  {
    if run != [] {
      NothingEntersAfterStop(Step(s, run[0]), run[1..]);
    }
  }

  /** Once stopped, nothing more is accepted, decoded or finished. */
  lemma StoppedIsFinal<P>(s: State<P>, a: Action<P>)
    requires Sound(s) && s.stopped && Enabled(s, a)
    ensures var n := Step(s, a);
            n.stopped && n.accepted == s.accepted && n.decoded == s.decoded && n.finishes == s.finishes
  {
  }

  /** Packets are decoded in acceptance order at every moment of every interleaving. */
  lemma DecodedInAcceptanceOrder<P>(threads: nat, capacity: nat, run: seq<Action<P>>)
    requires Possible(Initial<P>(threads, capacity), run)
    ensures var s := After(Initial<P>(threads, capacity), run);
            && s.decoded <= s.accepted && s.finishes <= 1
            && var all := s.dequeued + s.queue; forall i :: 0 <= i < |all| - 1 ==> all[i] != Sentinel
  {
    InitialIsSound<P>(threads, capacity);
    RunKeepsSound(Initial<P>(threads, capacity), run);
    hide Possible, After;
  }
}
