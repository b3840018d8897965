// The hydration tracker's outbox under concurrency: any number of threads, each inside one of the
// public methods or inside a callback that calls them again, interleaved at every release of the lock.
module Outbox {

  /** Where one activation stands. `Queued`: its events are in the outbox, it has yet to ask for the
      dispatcher's role. The others are the dispatcher's: at the head of its loop, holding an event it
      has taken out, and inside the callback. */
  datatype Frame<E> = Queued | Looping | Taken(event: E) | Emitting

  /** One call stack per thread, innermost activation last. `queued` and `emitted` are histories; `left`
      is what was in the outbox when the dispatcher's role was last given back. */
  datatype State<E> = State(
    stacks: seq<seq<Frame<E>>>, outbox: seq<E>, dispatching: bool,
    queued: seq<E>, emitted: seq<E>, raised: bool, left: seq<E>)

  datatype Action<E> =
    | Call(events: seq<E>)
    | Ask
    | Next
    | Emit
    | Return
    | Raise

  function Top<E>(stack: seq<Frame<E>>): Frame<E>
    requires stack != []
  {
    stack[|stack| - 1]
  }

  /** A thread can do this where it stands: call a method from outside or from within a callback, and
      otherwise only what its innermost activation is about to do. */
  predicate Enabled<E>(s: State<E>, t: nat, a: Action<E>) {
    && t < |s.stacks|
    && var stack := s.stacks[t];
    match a
    case Call(_) => stack == [] || Top(stack).Emitting?
    case Ask => stack != [] && Top(stack).Queued?
    case Next => stack != [] && Top(stack).Looping?
    case Emit => stack != [] && Top(stack).Taken?
    case Return => stack != [] && Top(stack).Emitting?
    case Raise => stack != [] && Top(stack).Emitting?
  }

  function Replace<E>(s: State<E>, t: nat, frames: seq<Frame<E>>): seq<seq<Frame<E>>>
    requires t < |s.stacks| && s.stacks[t] != []
  {
    s.stacks[t := s.stacks[t][..|s.stacks[t]| - 1] + frames]
  }

  /** One step of one thread: what happens under one hold of the lock, or one end of a callback. */
  function Step<E>(s: State<E>, t: nat, a: Action<E>): (n: State<E>)
    requires Enabled(s, t, a)
  {
    match a
    case Call(events) =>
      s.(outbox := s.outbox + events, queued := s.queued + events, stacks := s.stacks[t := s.stacks[t] + [Queued]])
    case Ask =>
      if s.dispatching then s.(stacks := Replace(s, t, []))
      else s.(dispatching := true, stacks := Replace(s, t, [Looping]))
    case Next =>
      if s.outbox == [] then s.(dispatching := false, left := [], stacks := Replace(s, t, []))
      else s.(outbox := s.outbox[1..], stacks := Replace(s, t, [Taken(s.outbox[0])]))
    case Emit => s.(emitted := s.emitted + [Top(s.stacks[t]).event], stacks := Replace(s, t, [Emitting]))
    case Return => s.(stacks := Replace(s, t, [Looping]))
    case Raise => s.(dispatching := false, raised := true, left := s.outbox, stacks := Replace(s, t, []))
  }

  function Initial<E>(threads: nat): State<E> {
    State(seq(threads, _ => []), [], false, [], [], false, [])
  }

  /** The thread holds the dispatcher's role. */
  predicate Dispatches<E>(stack: seq<Frame<E>>) {
    stack != [] && !stack[0].Queued?
  }

  /** A thread is outside, has queued and not yet asked, or dispatches; and only from within the
      callback has it possibly called in again. */
  predicate WellNested<E>(stack: seq<Frame<E>>) {
    && |stack| <= 2 && (|stack| == 2 ==> stack[0].Emitting? && stack[1].Queued?)
  }

  ghost predicate HasQueued<E>(s: State<E>) {
    exists t :: 0 <= t < |s.stacks| && s.stacks[t] == [Queued]
  }

  predicate Holding<E>(stack: seq<Frame<E>>) {
    stack != [] && stack[0].Taken?
  }

  ghost predicate Nested<E>(s: State<E>) {
    forall t :: 0 <= t < |s.stacks| ==> WellNested(s.stacks[t])
  }

  /** At most one thread dispatches, and the flag says whether one does. */
  ghost predicate OneDispatcher<E>(s: State<E>) {
    && (forall t, u :: 0 <= t < |s.stacks| && 0 <= u < |s.stacks| && t != u ==>
          !Dispatches(s.stacks[t]) || !Dispatches(s.stacks[u]))
    && (s.dispatching <==> exists t :: 0 <= t < |s.stacks| && Dispatches(s.stacks[t]))
  }

  /** What was queued is what was emitted, the event in the dispatcher's hand, and the outbox. */
  ghost predicate InOrder<E>(s: State<E>) {
    && (forall t :: 0 <= t < |s.stacks| && Holding(s.stacks[t]) ==>
          s.queued == s.emitted + [s.stacks[t][0].event] + s.outbox)
    && ((forall t :: 0 <= t < |s.stacks| ==> !Holding(s.stacks[t])) ==> s.queued == s.emitted + s.outbox)
  }

  /** An event in the outbox has someone who will see to it, unless a callback failed. */
  ghost predicate NoneForgotten<E>(s: State<E>) {
    && (s.outbox != [] ==> s.dispatching || HasQueued(s) || s.raised)
    && (s.dispatching || HasQueued(s) || s.outbox == s.left)
  }

  /** What every interleaving keeps. */
  ghost predicate Sound<E>(s: State<E>) {
    Nested(s) && OneDispatcher(s) && InOrder(s) && NoneForgotten(s)
  }

  datatype Choice<E> = Choice(thread: nat, action: Action<E>)

  predicate Possible<E>(s: State<E>, run: seq<Choice<E>>)
    decreases |run|
  {
    run == [] || (Enabled(s, run[0].thread, run[0].action) && Possible(Step(s, run[0].thread, run[0].action), run[1..]))
  }

  function After<E>(s: State<E>, run: seq<Choice<E>>): State<E>
    requires Possible(s, run)
    decreases |run|
  {
    if run == [] then s else After(Step(s, run[0].thread, run[0].action), run[1..])
  }

  lemma StepKeepsSound<E>(s: State<E>, t: nat, a: Action<E>)
    requires Sound(s) && Enabled(s, t, a)
    ensures Sound(Step(s, t, a))
  {
    hide Nested, OneDispatcher, InOrder, NoneForgotten, Step, Enabled;
    StepKeepsNesting(s, t, a);
    StepKeepsOneDispatcher(s, t, a);
    StepKeepsOrder(s, t, a);
    StepForgetsNone(s, t, a);
  }

  lemma StepKeepsNesting<E>(s: State<E>, t: nat, a: Action<E>)
    requires Nested(s) && OneDispatcher(s) && Enabled(s, t, a)
    ensures Nested(Step(s, t, a))
  {
    var n := Step(s, t, a);
    assert WellNested(s.stacks[t]);
    forall u | 0 <= u < |n.stacks| ensures WellNested(n.stacks[u]) {
      assert u != t ==> n.stacks[u] == s.stacks[u];
    }
  }

  lemma StepKeepsOneDispatcher<E>(s: State<E>, t: nat, a: Action<E>)
    requires Nested(s) && OneDispatcher(s) && Enabled(s, t, a)
    ensures OneDispatcher(Step(s, t, a))
  {
    var n := Step(s, t, a);
    if s.dispatching {
      var u :| 0 <= u < |s.stacks| && Dispatches(s.stacks[u]);
      assert n.dispatching ==> Dispatches(n.stacks[u]);
    } else {
      assert n.dispatching ==> Dispatches(n.stacks[t]);
    }
  }

  lemma StepKeepsOrder<E>(s: State<E>, t: nat, a: Action<E>)
    requires Nested(s) && OneDispatcher(s) && InOrder(s) && Enabled(s, t, a)
    ensures InOrder(Step(s, t, a))
  {
    var n := Step(s, t, a);
    assert a.Emit? ==> Holding(s.stacks[t]);
    assert a.Next? && s.outbox != [] ==>
             Holding(n.stacks[t]) && Dispatches(s.stacks[t]) && s.outbox == [s.outbox[0]] + s.outbox[1..];
    assert forall u :: 0 <= u < |s.stacks| && u != t ==> n.stacks[u] == s.stacks[u];
  }

  lemma StepForgetsNone<E>(s: State<E>, t: nat, a: Action<E>)
    requires Nested(s) && OneDispatcher(s) && NoneForgotten(s) && Enabled(s, t, a)
    ensures NoneForgotten(Step(s, t, a))
  {
    var n := Step(s, t, a);
    if a.Call? {
      assert s.stacks[t] == [] ==> n.stacks[t] == [Queued];
      assert s.stacks[t] != [] ==> Dispatches(s.stacks[t]);
    } else if HasQueued(s) {
      var u :| 0 <= u < |s.stacks| && s.stacks[u] == [Queued];
      assert u != t ==> n.stacks[u] == [Queued];
    }
  }

  lemma {:induction false} RunKeepsSound<E>(s: State<E>, run: seq<Choice<E>>)
    requires Sound(s) && Possible(s, run)
    ensures Sound(After(s, run))
    decreases |run|
  {
    hide Sound, Step, Enabled;
    if run != [] {
      StepKeepsSound(s, run[0].thread, run[0].action);
      RunKeepsSound(Step(s, run[0].thread, run[0].action), run[1..]);
    }
  }

  lemma InitialIsSound<E>(threads: nat)
    ensures Sound(Initial<E>(threads))
  {
  }

  /** At most one thread dispatches, whatever the interleaving. */
  lemma OneDispatcherAlways<E>(threads: nat, run: seq<Choice<E>>, t: nat, u: nat)
    requires Possible(Initial<E>(threads), run)
    ensures var s := After(Initial<E>(threads), run);
            t < |s.stacks| && u < |s.stacks| && Dispatches(s.stacks[t]) && Dispatches(s.stacks[u]) ==> t == u
  {
    hide Possible, After;
    InitialIsSound<E>(threads);
    RunKeepsSound(Initial<E>(threads), run);
  }

  /** Events are emitted in the order they were queued, none twice and none left out. */
  lemma EmittedInQueueOrder<E>(threads: nat, run: seq<Choice<E>>)
    requires Possible(Initial<E>(threads), run)
    ensures After(Initial<E>(threads), run).emitted <= After(Initial<E>(threads), run).queued
  {
    hide Possible, After, InOrder;
    InitialIsSound<E>(threads);
    RunKeepsSound(Initial<E>(threads), run);
    EmittedComesFirst(After(Initial<E>(threads), run));
  }

  lemma EmittedComesFirst<E>(s: State<E>)
    requires InOrder(s)
    ensures s.emitted <= s.queued
  {
    if t :| 0 <= t < |s.stacks| && Holding(s.stacks[t]) {
      assert s.queued == s.emitted + ([s.stacks[t][0].event] + s.outbox);
    }
  }

  /** With no thread inside, everything queued has been emitted: as long as no callback raised. */
  lemma QuietMeansEmpty<E>(threads: nat, run: seq<Choice<E>>)
    requires Possible(Initial<E>(threads), run)
    requires var s := After(Initial<E>(threads), run);
             !s.raised && forall t :: 0 <= t < |s.stacks| ==> s.stacks[t] == []
    ensures var s := After(Initial<E>(threads), run); s.outbox == [] && s.emitted == s.queued && !s.dispatching
  {
    hide Possible, After;
    InitialIsSound<E>(threads);
    RunKeepsSound(Initial<E>(threads), run);
    var s := After(Initial<E>(threads), run);
    assert s.queued == s.emitted + s.outbox;
  }

  /** With no thread inside, raised or not: what is not emitted is in the outbox, and that is exactly what
      the last dispatcher left there. It leaves nothing unless its callback raised. */
  lemma QuietLeavesExactly<E>(threads: nat, run: seq<Choice<E>>)
    requires Possible(Initial<E>(threads), run)
    requires var s := After(Initial<E>(threads), run); forall t :: 0 <= t < |s.stacks| ==> s.stacks[t] == []
    ensures var s := After(Initial<E>(threads), run);
            && s.queued == s.emitted + s.outbox && !s.dispatching && s.outbox == s.left
            && (s.outbox != [] ==> s.raised)
  {
    hide Possible, After;
    InitialIsSound<E>(threads);
    RunKeepsSound(Initial<E>(threads), run);
  }

  lemma ReplaceAlone<E>(s: State<E>, f: Frame<E>, frames: seq<Frame<E>>)
    requires s.stacks == [[f]]
    ensures Replace(s, 0, frames) == [frames]
  {
    assert [f][..0] + frames == frames;
  }

  /** The proviso is needed: a callback that raises gives the role back with events still queued. */
  lemma RaisingLeavesEvents(a: int, b: int)
    ensures var run := [Choice(0, Call([a, b]))] + ([Choice(0, Ask)]
                       + ([Choice(0, Next)] + ([Choice(0, Emit)] + ([Choice(0, Raise)] + []))));
            && Possible(Initial<int>(1), run)
            && var s := After(Initial<int>(1), run);
            s.outbox == [b] && s.emitted == [a] && s.stacks == [[]] && !s.dispatching
  {
    hide Initial, Possible, After;
    var s0, s1 := Initial<int>(1), State([[Queued]], [a, b], false, [a, b], [], false, []);
    CallAlone([a, b]);
    var s2 := s1.(dispatching := true, stacks := [[Looping]]);
    ReplaceAlone(s1, Queued, [Looping]);
    assert Step(s1, 0, Ask) == s2;
    var s3 := s2.(outbox := [b], stacks := [[Taken(a)]]);
    ReplaceAlone(s2, Looping, [Taken(a)]);
    assert s2.outbox[1..] == [b];
    assert Step(s2, 0, Next) == s3;
    var s4 := s3.(emitted := [a], stacks := [[Emitting]]);
    ReplaceAlone(s3, Taken(a), [Emitting]);
    assert [] + [a] == [a];
    assert Step(s3, 0, Emit) == s4;
    var s5 := s4.(dispatching := false, raised := true, left := [b], stacks := [[]]);
    ReplaceAlone(s4, Emitting, []);
    assert Step(s4, 0, Raise) == s5;
    hide Step, Enabled;
    Ends(s5);
    Continues(s4, Raise, []);
    var r4 := [Choice(0, Raise)] + [];
    Continues(s3, Emit, r4);
    var r3 := [Choice(0, Emit)] + r4;
    Continues(s2, Next, r3);
    var r2 := [Choice(0, Next)] + r3;
    Continues(s1, Ask, r2);
    Continues(s0, Call([a, b]), [Choice(0, Ask)] + r2);
  }

  lemma CallAlone<E>(events: seq<E>)
    ensures Enabled(Initial<E>(1), 0, Call(events))
    ensures Step(Initial<E>(1), 0, Call(events)) == State([[Queued]], events, false, events, [], false, [])
  {
    var s := Initial<E>(1);
    assert s.stacks[0] + [Queued] == [Queued] && [] + events == events;
  }

  lemma Ends<E>(s: State<E>)
    ensures Possible(s, []) && After(s, []) == s
  {
  }

  lemma Continues<E>(s: State<E>, a: Action<E>, rest: seq<Choice<E>>)
    requires Enabled(s, 0, a) && Possible(Step(s, 0, a), rest)
    ensures Possible(s, [Choice(0, a)] + rest) && After(s, [Choice(0, a)] + rest) == After(Step(s, 0, a), rest)
  {
    assert ([Choice(0, a)] + rest)[1..] == rest;
  }
}
