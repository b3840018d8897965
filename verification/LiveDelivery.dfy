// Live events from `_enqueue` to `poll`: a bounded queue, and a tail for what is finalized during
// shutdown, for every interleaving of producers, polling threads and the stopping thread.
module LiveDelivery {

  /** The thread inside `_enqueue`, which the delivery lock admits one at a time: entered, at the head
      of the put loop, past its stop check. */
  datatype Producer<E> = Nobody | Entered(event: E) | Looping(event: E) | Trying(event: E)

  /** `sawEmpty[t]`: poll `t` found the queue empty under the lock and is about to look at `stopped`.
      `taken`, `dropped` and `returned` are histories. */
  datatype State<E> = State(
    queue: seq<E>, capacity: nat, tail: seq<E>, finalizing: bool, stopRequested: bool, stopped: bool,
    producer: Producer<E>, sawEmpty: seq<bool>, taken: seq<E>, dropped: seq<E>, returned: seq<E>)

  datatype Action<E> =
    | Enqueue(event: E)
    | Route
    | CheckStop
    | TryPut
    | Finalize
    | RequestStop
    | MarkStopped
    | PollQueue
    | PollEmpty(poll: nat)
    | PollStopped(poll: nat)

  predicate Enabled<E>(s: State<E>, a: Action<E>) {
    match a
    case Enqueue(_) => s.producer.Nobody?
    case Route => s.producer.Entered?
    case CheckStop => s.producer.Looping?
    case TryPut => s.producer.Trying?
    case Finalize => true
    case RequestStop => true
    case MarkStopped => s.finalizing && s.stopRequested
    case PollQueue => s.queue != []
    case PollEmpty(t) => t < |s.sawEmpty| && !s.sawEmpty[t] && s.queue == [] && s.producer.Nobody?
    case PollStopped(t) => t < |s.sawEmpty| && s.sawEmpty[t]
  }

  function ToTail<E>(s: State<E>, e: E): State<E> {
    s.(tail := s.tail + [e], taken := s.taken + [e], producer := Nobody)
  }

  function Step<E>(s: State<E>, a: Action<E>): (n: State<E>)
    requires Enabled(s, a)
  {
    match a
    case Enqueue(e) => s.(producer := Entered(e))
    case Route => if s.finalizing then ToTail(s, s.producer.event) else s.(producer := Looping(s.producer.event))
    case CheckStop =>
      if s.stopRequested then s.(dropped := s.dropped + [s.producer.event], producer := Nobody)
      else s.(producer := Trying(s.producer.event))
    case TryPut =>
      var e := s.producer.event;
      if |s.queue| < s.capacity then s.(queue := s.queue + [e], taken := s.taken + [e], producer := Nobody)
      else if s.finalizing then ToTail(s, e)
      else s.(producer := Looping(e))
    case Finalize => s.(finalizing := true)
    case RequestStop => s.(stopRequested := true)
    case MarkStopped => s.(stopped := true)
    case PollQueue => s.(returned := s.returned + [s.queue[0]], queue := s.queue[1..])
    case PollEmpty(t) => s.(sawEmpty := s.sawEmpty[t := true])
    case PollStopped(t) =>
      if s.stopped && s.tail != []
      then s.(returned := s.returned + [s.tail[0]], tail := s.tail[1..], sawEmpty := s.sawEmpty[t := false])
      else s.(sawEmpty := s.sawEmpty[t := false])
  }

  function Initial<E>(polls: nat, capacity: nat): State<E> {
    State([], capacity, [], false, false, false, Nobody, seq(polls, _ => false), [], [], [])
  }

  /** A poll takes from the tail only with the queue still empty. */
  predicate Orderly<E>(s: State<E>, a: Action<E>) {
    a.PollStopped? && s.stopped && s.tail != [] ==> s.queue == []
  }

  predicate Possible<E>(s: State<E>, run: seq<Action<E>>)
    decreases |run|
  {
    run == [] || (Enabled(s, run[0]) && Possible(Step(s, run[0]), run[1..]))
  }

  function After<E>(s: State<E>, run: seq<Action<E>>): State<E>
    requires Possible(s, run)
    decreases |run|
  {
    if run == [] then s else After(Step(s, run[0]), run[1..])
  }

  predicate OrderlyRun<E>(s: State<E>, run: seq<Action<E>>)
    requires Possible(s, run)
    decreases |run|
  {
    run == [] || (Orderly(s, run[0]) && OrderlyRun(Step(s, run[0]), run[1..]))
  }

  /** Nothing goes into the queue any more once the tail is in use. */
  ghost predicate QueueBeforeTail<E>(s: State<E>) {
    && (s.producer.Looping? || s.producer.Trying? ==> s.tail == [])
    && (s.tail != [] || s.stopped ==> s.finalizing)
  }

  /** What has been taken is what was returned, then the queue, then the tail. */
  ghost predicate InOrder<E>(s: State<E>) {
    s.returned + s.queue + s.tail == s.taken
  }

  /** Nothing taken is lost or repeated. */
  ghost predicate Conserved<E>(s: State<E>) {
    multiset(s.returned) + multiset(s.queue) + multiset(s.tail) == multiset(s.taken)
  }

  lemma StepKeepsRouting<E>(s: State<E>, a: Action<E>)
    requires QueueBeforeTail(s) && Enabled(s, a)
    ensures QueueBeforeTail(Step(s, a))
  {
  }

  lemma Moving<E>(to: seq<E>, from: seq<E>)
    requires from != []
    ensures multiset(to + [from[0]]) + multiset(from[1..]) == multiset(to) + multiset(from)
  {
    assert from == [from[0]] + from[1..];
  }

  lemma Returning<E>(s: State<E>, n: State<E>)
    requires Conserved(s) && n.taken == s.taken
    requires (s.queue != [] && n.returned == s.returned + [s.queue[0]] && n.queue == s.queue[1..] && n.tail == s.tail)
             || (s.tail != [] && n.returned == s.returned + [s.tail[0]] && n.tail == s.tail[1..] && n.queue == s.queue)
    ensures Conserved(n)
  {
    if s.queue != [] && n.queue == s.queue[1..] {
      Moving(s.returned, s.queue);
    } else {
      Moving(s.returned, s.tail);
      assert multiset(n.returned) + multiset(n.queue) + multiset(n.tail) ==
             (multiset(n.returned) + multiset(n.tail)) + multiset(n.queue);
      assert multiset(s.returned) + multiset(s.queue) + multiset(s.tail) ==
             (multiset(s.returned) + multiset(s.tail)) + multiset(s.queue);
    }
  }

  lemma SameEvents<E>(s: State<E>, n: State<E>)
    requires Conserved(s) && n.taken == s.taken && n.queue == s.queue && n.tail == s.tail && n.returned == s.returned
    ensures Conserved(n)
  {
  }

  lemma StepConserves<E>(s: State<E>, a: Action<E>)
    requires Conserved(s) && Enabled(s, a)
    ensures Conserved(Step(s, a)) && s.returned <= Step(s, a).returned && s.taken <= Step(s, a).taken
  {
    hide Conserved;
    var n := Step(s, a);
    if n.returned != s.returned {
      Returning(s, n);
    } else if n.taken != s.taken {
      Adding(s, n);
    } else {
      SameEvents(s, n);
    }
  }

  lemma Adding<E>(s: State<E>, n: State<E>)
    requires Conserved(s) && n.returned == s.returned
    requires n == s.(producer := n.producer)
             || (!s.producer.Nobody? && n.taken == s.taken + [s.producer.event]
                 && ((n.tail == s.tail + [s.producer.event] && n.queue == s.queue)
                     || (n.queue == s.queue + [s.producer.event] && n.tail == s.tail)))
    ensures Conserved(n)
  {
  }

  lemma StepKeepsOrder<E>(s: State<E>, a: Action<E>)
    requires QueueBeforeTail(s) && InOrder(s) && Enabled(s, a) && Orderly(s, a)
    ensures InOrder(Step(s, a))
  {
    var n := Step(s, a);
    if a.PollQueue? {
      FirstMoves(s.returned, s.queue, s.tail);
    } else if a.PollStopped? && s.stopped && s.tail != [] {
      FirstMoves(s.returned, s.tail, []);
      assert s.returned + s.queue == s.returned && n.returned + n.queue == n.returned;
    } else if n.queue != s.queue || n.tail != s.tail {
      LastJoins(s.returned, s.queue, s.tail, s.producer.event);
    }
  }

  lemma FirstMoves<E>(to: seq<E>, from: seq<E>, rest: seq<E>)
    requires from != []
    ensures to + [from[0]] + from[1..] + rest == to + from + rest
  {
    assert from == [from[0]] + from[1..];
  }

  lemma LastJoins<E>(a: seq<E>, b: seq<E>, c: seq<E>, e: E)
    ensures a + b + (c + [e]) == a + b + c + [e]
    ensures c == [] ==> a + (b + [e]) + c == a + b + c + [e]
  {
  }

  predicate Distinct<E(==)>(s: seq<E>) {
    forall i, j :: 0 <= i < j < |s| ==> s[i] != s[j]
  }

  /** Something was returned in another's place. */
  ghost predicate Misplaced<E>(s: State<E>) {
    exists i :: 0 <= i < |s.returned| && i < |s.taken| && s.returned[i] != s.taken[i]
  }

  lemma DisorderShows<E>(s: State<E>, a: Action<E>)
    requires InOrder(s) && Enabled(s, a) && !Orderly(s, a) && Distinct(s.taken)
    ensures Misplaced(Step(s, a))
  {
    var n, r := Step(s, a), |s.returned|;
    var q := |s.queue|;
    assert (s.returned + s.queue + s.tail)[r] == s.queue[0] && (s.returned + s.queue + s.tail)[r + q] == s.tail[0];
    assert n.returned[r] == s.tail[0] && n.taken[r] == s.queue[0];
  }

  lemma {:induction false} MisplacedStays<E>(s: State<E>, run: seq<Action<E>>)
    requires Misplaced(s) && Conserved(s) && Possible(s, run)
    ensures Misplaced(After(s, run))
    decreases |run|
  {
    hide Conserved, Step, Enabled;
    if run != [] {
      var n := Step(s, run[0]);
      StepConserves(s, run[0]);
      var i :| 0 <= i < |s.returned| && i < |s.taken| && s.returned[i] != s.taken[i];
      assert n.returned[i] == s.returned[i] && n.taken[i] == s.taken[i];
      MisplacedStays(n, run[1..]);
    }
  }

  lemma {:induction false} TakenGrows<E>(s: State<E>, run: seq<Action<E>>)
    requires Conserved(s) && Possible(s, run)
    ensures s.taken <= After(s, run).taken && Conserved(After(s, run))
    decreases |run|
  {
    hide Conserved, Step, Enabled;
    if run != [] {
      StepConserves(s, run[0]);
      TakenGrows(Step(s, run[0]), run[1..]);
    }
  }

  ghost predicate Sound<E>(s: State<E>) {
    QueueBeforeTail(s) && InOrder(s) && Conserved(s)
  }

  lemma {:induction false} OrderIff<E>(s: State<E>, run: seq<Action<E>>)
    requires Sound(s) && Possible(s, run) && Distinct(After(s, run).taken)
    ensures After(s, run).returned <= After(s, run).taken <==> OrderlyRun(s, run)
    decreases |run|
  {
    hide QueueBeforeTail, Conserved, Step, Enabled, Orderly;
    if run == [] {
      assert s.returned + s.queue + s.tail == s.returned + (s.queue + s.tail);
    } else {
      var n := Step(s, run[0]);
      StepKeepsRouting(s, run[0]);
      StepConserves(s, run[0]);
      if Orderly(s, run[0]) {
        StepKeepsOrder(s, run[0]);
        OrderIff(n, run[1..]);
      } else {
        TakenGrows(s, run);
        assert Distinct(s.taken) by { PrefixIsDistinct(s.taken, After(s, run).taken); }
        DisorderShows(s, run[0]);
        MisplacedStays(n, run[1..]);
      }
    }
  }

  lemma PrefixIsDistinct<E>(part: seq<E>, all: seq<E>)
    requires part <= all && Distinct(all)
    ensures Distinct(part)
  {
  }

  lemma InitialIsSound<E>(polls: nat, capacity: nat)
    ensures Sound(Initial<E>(polls, capacity))
  {
  }

  /** On any interleaving: polls return the events in the order `_enqueue` took them if and only if
      every poll that took from the tail did so with the queue still empty. */
  lemma ReturnedInOrderIff<E>(polls: nat, capacity: nat, run: seq<Action<E>>)
    requires Possible(Initial<E>(polls, capacity), run) && Distinct(After(Initial<E>(polls, capacity), run).taken)
    ensures var s := After(Initial<E>(polls, capacity), run);
            s.returned <= s.taken <==> OrderlyRun(Initial<E>(polls, capacity), run)
  {
    InitialIsSound<E>(polls, capacity);
    OrderIff(Initial<E>(polls, capacity), run);
  }

  /** In order or not, every event taken is returned once, or still in the queue or the tail. */
  lemma NothingTakenIsLost<E>(polls: nat, capacity: nat, run: seq<Action<E>>)
    requires Possible(Initial<E>(polls, capacity), run)
    ensures Conserved(After(Initial<E>(polls, capacity), run))
  {
    InitialIsSound<E>(polls, capacity);
    TakenGrows(Initial<E>(polls, capacity), run);
  }

  /** Finalizing, with an empty queue and no put under way. */
  predicate Quiet<E>(s: State<E>) {
    s.finalizing && s.queue == [] && !s.producer.Looping? && !s.producer.Trying?
  }

  /** From then on nothing comes out of order: a poll that begins after the session has stopped and
      finds the queue empty is safe. */
  lemma {:induction false} QuietIsOrderly<E>(s: State<E>, run: seq<Action<E>>)
    requires Quiet(s) && Possible(s, run)
    ensures OrderlyRun(s, run)
    decreases |run|
  {
    if run != [] {
      QuietStays(s, run[0]);
      hide Step, Enabled;
      QuietIsOrderly(Step(s, run[0]), run[1..]);
    }
  }

  lemma QuietStays<E>(s: State<E>, a: Action<E>)
    requires Quiet(s) && Enabled(s, a)
    ensures Quiet(Step(s, a)) && Orderly(s, a)
  {
  }

  /** No poll is between its look at the queue and its look at `stopped` when the session stops: what a
      caller can see to by not polling across the end of `stop`. */
  ghost predicate NoPollAcross<E>(s: State<E>, run: seq<Action<E>>)
    requires Possible(s, run)
    decreases |run|
  {
    run == [] || ((run[0].MarkStopped? && !s.stopped ==> NonePolling(s)) && NoPollAcross(Step(s, run[0]), run[1..]))
  }

  ghost predicate NonePolling<E>(s: State<E>) {
    forall t :: 0 <= t < |s.sawEmpty| ==> !s.sawEmpty[t]
  }

  /** Once stopped, either nothing can come out of order any more or no poll is under way. */
  ghost predicate SafelyStopped<E>(s: State<E>) {
    QueueBeforeTail(s) && (s.stopped ==> Quiet(s) || NonePolling(s))
  }

  lemma StepStaysSafe<E>(s: State<E>, a: Action<E>)
    requires SafelyStopped(s) && Enabled(s, a) && (a.MarkStopped? && !s.stopped ==> NonePolling(s))
    ensures SafelyStopped(Step(s, a)) && Orderly(s, a)
  {
  }

  lemma {:induction false} NoPollAcrossIsOrderly<E>(s: State<E>, run: seq<Action<E>>)
    requires SafelyStopped(s) && Possible(s, run) && NoPollAcross(s, run)
    ensures OrderlyRun(s, run)
    decreases |run|
  {
    hide Step, Enabled, SafelyStopped, Orderly;
    if run != [] {
      StepStaysSafe(s, run[0]);
      NoPollAcrossIsOrderly(Step(s, run[0]), run[1..]);
    }
  }

  /** If no poll is under way across the moment the session stops, polls return the events in the order
      `_enqueue` took them, whatever else interleaves. */
  lemma PollsOutsideStopAreInOrder<E>(polls: nat, capacity: nat, run: seq<Action<E>>)
    requires Possible(Initial<E>(polls, capacity), run) && NoPollAcross(Initial<E>(polls, capacity), run)
    ensures var s := After(Initial<E>(polls, capacity), run); s.returned <= s.taken
  {
    InitialIsSound<E>(polls, capacity);
    NoPollAcrossIsOrderly(Initial<E>(polls, capacity), run);
    OrderlyIsInOrder(Initial<E>(polls, capacity), run);
  }

  lemma {:induction false} OrderlyIsInOrder<E>(s: State<E>, run: seq<Action<E>>)
    requires QueueBeforeTail(s) && InOrder(s) && Possible(s, run) && OrderlyRun(s, run)
    ensures After(s, run).returned <= After(s, run).taken
    decreases |run|
  {
    hide QueueBeforeTail, Step, Enabled, Orderly;
    if run == [] {
      assert s.returned + s.queue + s.tail == s.returned + (s.queue + s.tail);
    } else {
      StepKeepsRouting(s, run[0]);
      StepKeepsOrder(s, run[0]);
      OrderlyIsInOrder(Step(s, run[0]), run[1..]);
    }
  }

  /** A poll has seen the queue empty; then a producer put `a`. */
  function Queued<E>(a: E): State<E> {
    State([a], 1, [], false, false, false, Nobody, [true], [a], [], [])
  }

  /** The shutdown runs, finalizing `b`, before the poll looks at `stopped`. */
  function Shutdown<E>(b: E): seq<Action<E>> {
    [Finalize] + ([RequestStop] + ([Enqueue(b)] + ([Route] + ([MarkStopped] + ([PollStopped(0)] + [])))))
  }

  function Overtaking<E>(a: E, b: E): seq<Action<E>> {
    [PollEmpty(0)] + ([Enqueue(a)] + ([Route] + ([CheckStop] + ([TryPut] + Shutdown(b)))))
  }

  /** The proviso is needed: between a poll's last look at the queue and its look at `stopped`, a
      producer can still put an event into the queue and the whole shutdown can run; the poll then
      returns what was finalized before what was queued. */
  lemma TailOvertakes<E>(a: E, b: E)
    ensures Possible(Initial<E>(1, 1), Overtaking(a, b))
    ensures var s := After(Initial<E>(1, 1), Overtaking(a, b)); s.taken == [a, b] && s.returned == [b] && s.queue == [a]
  {
    hide Possible, After, Shutdown;
    ShutdownOvertakes(a, b);
    var s0 := State([], 1, [], false, false, false, Nobody, [false], [], [], []);
    assert Initial<E>(1, 1) == s0;
    var s1 := s0.(sawEmpty := [true]);
    var s2 := s1.(producer := Entered(a));
    var s3 := s2.(producer := Looping(a));
    var s4 := s3.(producer := Trying(a));
    assert s0.sawEmpty[0 := true] == [true] && [] + [a] == [a];
    Continues(s4, Queued(a), TryPut, Shutdown(b));
    Continues(s3, s4, CheckStop, [TryPut] + Shutdown(b));
    Continues(s2, s3, Route, [CheckStop] + ([TryPut] + Shutdown(b)));
    Continues(s1, s2, Enqueue(a), [Route] + ([CheckStop] + ([TryPut] + Shutdown(b))));
    Continues(s0, s1, PollEmpty(0), [Enqueue(a)] + ([Route] + ([CheckStop] + ([TryPut] + Shutdown(b)))));
  }

  lemma ShutdownOvertakes<E>(a: E, b: E)
    ensures Possible(Queued(a), Shutdown(b))
    ensures After(Queued(a), Shutdown(b)) == State([a], 1, [], true, true, true, Nobody, [false], [a, b], [], [b])
  {
    hide Possible, After;
    var s6 := Queued(a).(finalizing := true);
    var s7 := s6.(stopRequested := true);
    var s8 := s7.(producer := Entered(b));
    var s9 := s8.(tail := [b], taken := [a, b], producer := Nobody);
    var s10 := s9.(stopped := true);
    var s11 := s10.(returned := [b], tail := [], sawEmpty := [false]);
    assert s10.sawEmpty[0 := false] == [false];
    assert [a] + [b] == [a, b] && [] + [b] == [b] && [b][1..] == [];
    Ends(s11);
    Continues(s10, s11, PollStopped(0), []);
    Continues(s9, s10, MarkStopped, [PollStopped(0)] + []);
    Continues(s8, s9, Route, [MarkStopped] + ([PollStopped(0)] + []));
    Continues(s7, s8, Enqueue(b), [Route] + ([MarkStopped] + ([PollStopped(0)] + [])));
    Continues(s6, s7, RequestStop, [Enqueue(b)] + ([Route] + ([MarkStopped] + ([PollStopped(0)] + []))));
    Continues(Queued(a), s6, Finalize,
        [RequestStop] + ([Enqueue(b)] + ([Route] + ([MarkStopped] + ([PollStopped(0)] + [])))));
  }

  lemma Ends<E>(s: State<E>)
    ensures Possible(s, []) && After(s, []) == s
  {
  }

  lemma Continues<E>(s: State<E>, n: State<E>, a: Action<E>, rest: seq<Action<E>>)
    requires Enabled(s, a) && Step(s, a) == n && Possible(n, rest)
    ensures Possible(s, [a] + rest) && After(s, [a] + rest) == After(n, rest)
  {
    assert ([a] + rest)[1..] == rest;
  }
}
