/** The process-wide queue of callbacks to run once the protected start-up code is done: any
    number of threads schedule, one thread drains, and callbacks schedule further callbacks. */
module Scheduler {

  type Thread = nat
  type Callback = nat

  /** What a thread is in the middle of, innermost last.  Each critical section is one step. */
  datatype Frame =
    | Calling(cb: Callback, pre: bool)      // before the lock; `pre`: the entry point has not run yet
    | Starting(cb: Callback)                // first caller: about to set up the hook
    | Checking(cb: Callback, pre: bool)     // queued, about to look at the state
    | Waiting(cb: Callback)                 // blocked until the state is 3
    | Running(cb: Callback, queued: bool)   // inside a callback
    | Draining(left: seq<Callback>)         // the drain loop with the callbacks it has taken

  datatype State = State(
    phase: nat,                             // 0 unused, 1 scheduled, 2 draining, 3 complete
    queue: seq<Callback>,
    detected: bool,                         // the published result
    stacks: map<Thread, seq<Frame>>,
    drainer: Thread,                        // who drains, from phase 2 on
    calling: map<Callback, Thread>,         // accepted, its caller not yet past the lock
    enqueued: seq<Callback>,                // in the order of the lock
    started: seq<Callback>,                 // queued callbacks the drain has started
    inline: seq<Callback>,                  // callbacks run by their own caller
    finished: set<Callback>,
    told: map<Callback, bool>)              // the result each callback was given

  function Stack(s: State, t: Thread): seq<Frame> {
    if t in s.stacks then s.stacks[t] else []
  }

  function Top(s: State, t: Thread): Frame
    requires Stack(s, t) != []
  {
    Stack(s, t)[|Stack(s, t)| - 1]
  }

  function Below(s: State, t: Thread): seq<Frame>
    requires Stack(s, t) != []
  {
    Stack(s, t)[..|Stack(s, t)| - 1]
  }

  /** The callbacks the drain has taken and not started. */
  function Taken(s: State): seq<Callback> {
    if Stack(s, s.drainer) != [] && Stack(s, s.drainer)[0].Draining? then Stack(s, s.drainer)[0].left else []
  }

  datatype Action =
    | Call(t: Thread, cb: Callback, pre: bool)
    | Enter(t: Thread)
    | Look(t: Thread)
    | Wake(t: Thread)
    | Hooked(t: Thread)
    | Flush(t: Thread, result: bool)
    | RunNext(t: Thread)
    | Return(t: Thread)
    | Refill(t: Thread)

  predicate Accepted(s: State, cb: Callback) {
    cb in s.calling || cb in s.enqueued || cb in s.inline
  }

  predicate Enabled(s: State, a: Action) {
    match a
    case Call(t, cb, _) => !Accepted(s, cb) && (Stack(s, t) == [] || Top(s, t).Running?)
    case Enter(t) => Stack(s, t) != [] && Top(s, t).Calling?
    case Look(t) => Stack(s, t) != [] && Top(s, t).Checking?
    case Wake(t) => Stack(s, t) != [] && Top(s, t).Waiting? && s.phase == 3
    case Hooked(t) => Stack(s, t) != [] && Top(s, t).Starting?
    // one drain per process, by an idle thread or by the first caller when no hook could be set up
    case Flush(t, _) => s.phase == 1 && (Stack(s, t) == [] || (|Stack(s, t)| == 1 && Top(s, t).Starting?))
    case RunNext(t) => Stack(s, t) != [] && Top(s, t).Draining? && Top(s, t).left != []
    case Return(t) => Stack(s, t) != [] && Top(s, t).Running?
    case Refill(t) => Stack(s, t) != [] && Top(s, t).Draining? && Top(s, t).left == []
  }

  function Pop(s: State, t: Thread): State
    requires Stack(s, t) != []
  {
    s.(stacks := s.stacks[t := Below(s, t)])
  }

  function Push(s: State, t: Thread, f: Frame): State {
    s.(stacks := s.stacks[t := Stack(s, t) + [f]])
  }

  /** Replaces the innermost frame. */
  function Become(s: State, t: Thread, f: Frame): State
    requires Stack(s, t) != []
  {
    s.(stacks := s.stacks[t := Below(s, t) + [f]])
  }

  function Next(s: State, a: Action): State
    requires Enabled(s, a)
  {
    match a
    case Call(t, cb, pre) => Push(s, t, Calling(cb, pre)).(calling := s.calling[cb := t])
    case Enter(t) =>
      var cb, pre := Top(s, t).cb, Top(s, t).pre;
      if s.phase == 3 then
        Become(s, t, Running(cb, false)).(calling := s.calling - {cb}, inline := s.inline + [cb], told := s.told[cb := s.detected])
      else
        var s' := s.(calling := s.calling - {cb}, queue := s.queue + [cb], enqueued := s.enqueued + [cb]);
        if s.phase == 0 then Become(s', t, Starting(cb)).(phase := 1) else Become(s', t, Checking(cb, pre))
    case Look(t) => if !Top(s, t).pre && s.phase != 2 then Become(s, t, Waiting(Top(s, t).cb)) else Pop(s, t)
    case Wake(t) => Pop(s, t)
    case Hooked(t) => Pop(s, t)
    case Flush(t, result) =>
      s.(stacks := s.stacks[t := [Draining(s.queue)]], queue := [], phase := 2, drainer := t, detected := result)
    case RunNext(t) =>
      var l := Top(s, t).left;
      s.(stacks := s.stacks[t := Below(s, t) + [Draining(l[1..]), Running(l[0], true)]], started := s.started + [l[0]],
         told := s.told[l[0] := s.detected])
    case Return(t) => Pop(s, t).(finished := s.finished + {Top(s, t).cb})
    case Refill(t) =>
      if s.queue == [] then Pop(s, t).(phase := 3) else Become(s, t, Draining(s.queue)).(queue := [])
  }

  function Start(): State {
    State(0, [], false, map[], 0, map[], [], [], [], {}, map[])
  }

  predicate Distinct(l: seq<Callback>) {
    forall i, j :: 0 <= i < j < |l| ==> l[i] != l[j]
  }

  /** What the frame at place `i` of a thread's `n` frames says about the state. */
  ghost predicate Fine(s: State, t: Thread, i: int, n: int, f: Frame) {
    match f
    case Calling(cb, _) => i == n - 1 && cb in s.calling && s.calling[cb] == t
    case Starting(_) => i == 0 && n == 1 && s.phase >= 1
    case Checking(cb, _) => i == n - 1 && cb in s.enqueued && s.phase >= 1
    case Waiting(cb) => i == n - 1 && cb in s.enqueued && s.phase >= 1 && !(s.phase == 2 && t == s.drainer)
    case Running(cb, queued) =>
      if queued then i == 1 && t == s.drainer && s.phase == 2 && cb in s.started else s.phase == 3 && cb in s.inline
    case Draining(_) => i == 0 && t == s.drainer && s.phase == 2
  }

  ghost predicate AllFine(s: State) {
    forall t: Thread, i {:trigger Stack(s, t)[i]} :: 0 <= i < |Stack(s, t)| ==> Fine(s, t, i, |Stack(s, t)|, Stack(s, t)[i])
  }

  /** Each accepted callback is in one place only. */
  ghost predicate Once(s: State) {
    && Distinct(s.enqueued) && Distinct(s.inline)
    && (forall cb :: cb in s.inline ==> cb !in s.enqueued && cb !in s.calling)
    && (forall cb :: cb in s.enqueued ==> cb !in s.calling)
    && (forall cb :: cb in s.calling ==> Stack(s, s.calling[cb]) != [] && Top(s, s.calling[cb]).Calling? && Top(s, s.calling[cb]).cb == cb)
  }

  /** Queued callbacks start in the order in which they were queued; the queue is empty in the end. */
  ghost predicate Ordered(s: State) {
    && s.enqueued == s.started + Taken(s) + s.queue
    && s.phase <= 3 && (s.phase == 0 ==> s.enqueued == []) && (s.phase < 2 ==> s.started == [])
    && (s.phase == 3 ==> s.queue == []) && (s.inline != [] ==> s.phase == 3)
    && (s.phase == 2 ==> Stack(s, s.drainer) != [] && Stack(s, s.drainer)[0].Draining?)
  }

  /** A queued callback that has started has finished, unless the drainer is in it right now. */
  ghost predicate Finishing(s: State) {
    && (forall cb :: cb in s.started && cb !in s.finished ==>
          |Stack(s, s.drainer)| >= 2 && s.phase == 2 && Stack(s, s.drainer)[1] == Running(cb, true))
    && (forall cb :: cb in s.finished ==> cb in s.started || cb in s.inline)
  }

  /** Every callback that runs is told the same published result. */
  ghost predicate Told(s: State) {
    forall cb :: cb in s.started || cb in s.inline ==> cb in s.told && s.told[cb] == s.detected
  }

  ghost predicate Inv(s: State) {
    AllFine(s) && Once(s) && Ordered(s) && Finishing(s) && Told(s)
  }

  lemma StartHolds()
    ensures Inv(Start())
  {
  }

  /** Only thread `t`'s frames change. */
  ghost predicate Changes(s: State, s': State, t: Thread) {
    forall u: Thread :: u != t ==> Stack(s', u) == Stack(s, u)
  }

  lemma NextChanges(s: State, a: Action)
    requires Enabled(s, a)
    ensures Changes(s, Next(s, a), a.t)
  {
  }

  /** The frames after a step are fine if the changed thread's are and the others' stay so. */
  lemma FramesKeep(s: State, a: Action)
    requires Inv(s) && Enabled(s, a)
    ensures AllFine(Next(s, a))
  {
    var s' := Next(s, a);
    NextChanges(s, a);
    forall t: Thread, i | 0 <= i < |Stack(s', t)| ensures Fine(s', t, i, |Stack(s', t)|, Stack(s', t)[i]) {
      if t != a.t {
        assert Fine(s, t, i, |Stack(s, t)|, Stack(s, t)[i]);
        OthersKeep(s, a, t, i);
      } else {
        OwnKeep(s, a, i);
      }
    }
  }

  lemma OthersKeep(s: State, a: Action, t: Thread, i: int)
    requires Inv(s) && Enabled(s, a) && t != a.t && 0 <= i < |Stack(s, t)|
    ensures Fine(Next(s, a), t, i, |Stack(s, t)|, Stack(s, t)[i])
  {
    hide Once, Ordered, Finishing, Told, AllFine;
    BelowIs(s, t, i);
    if a.Refill? || a.RunNext? || a.Enter? { BelowIs(s, a.t, |Stack(s, a.t)| - 1); }
  }

  /** Frames below the innermost one are callbacks in progress or the drain. */
  lemma BelowIs(s: State, t: Thread, i: int)
    requires AllFine(s) && 0 <= i < |Stack(s, t)|
    ensures Fine(s, t, i, |Stack(s, t)|, Stack(s, t)[i])
    ensures i < |Stack(s, t)| - 1 ==> Stack(s, t)[i].Running? || Stack(s, t)[i].Draining?
  {
  }

  lemma OwnKeep(s: State, a: Action, i: int)
    requires Inv(s) && Enabled(s, a) && 0 <= i < |Stack(Next(s, a), a.t)|
    ensures Fine(Next(s, a), a.t, i, |Stack(Next(s, a), a.t)|, Stack(Next(s, a), a.t)[i])
  {
    match a {
      case Call(t, _, _) => OwnPush(s, a, i);
      case Enter(t) => OwnEnter(s, a, i);
      case Flush(t, _) => OwnFlush(s, a, i);
      case RunNext(t) => OwnRun(s, a, i);
      case Refill(t) => OwnRefill(s, a, i);
      case _ => OwnPop(s, a, i);
    }
  }

  lemma OwnPush(s: State, a: Action, i: int)
    requires Inv(s) && Enabled(s, a) && a.Call? && 0 <= i < |Stack(Next(s, a), a.t)|
    ensures Fine(Next(s, a), a.t, i, |Stack(Next(s, a), a.t)|, Stack(Next(s, a), a.t)[i])
  {
    hide Once, Ordered, Finishing, Told;
    if i < |Stack(s, a.t)| { BelowIs(s, a.t, i); }
  }

  lemma OwnEnter(s: State, a: Action, i: int)
    requires Inv(s) && Enabled(s, a) && a.Enter? && 0 <= i < |Stack(Next(s, a), a.t)|
    ensures Fine(Next(s, a), a.t, i, |Stack(Next(s, a), a.t)|, Stack(Next(s, a), a.t)[i])
  {
    hide Once, Finishing, Told;
    BelowIs(s, a.t, i);
    if |Stack(s, a.t)| > 1 { BelowIs(s, a.t, 0); }
  }

  lemma OwnFlush(s: State, a: Action, i: int)
    requires Inv(s) && Enabled(s, a) && a.Flush? && 0 <= i < |Stack(Next(s, a), a.t)|
    ensures Fine(Next(s, a), a.t, i, |Stack(Next(s, a), a.t)|, Stack(Next(s, a), a.t)[i])
  {
    hide Once, Ordered, Finishing, Told, AllFine;
  }

  lemma OwnRun(s: State, a: Action, i: int)
    requires Inv(s) && Enabled(s, a) && a.RunNext? && 0 <= i < |Stack(Next(s, a), a.t)|
    ensures Fine(Next(s, a), a.t, i, |Stack(Next(s, a), a.t)|, Stack(Next(s, a), a.t)[i])
  {
    hide Once, Ordered, Finishing, Told;
    BelowIs(s, a.t, |Stack(s, a.t)| - 1);
  }

  lemma OwnRefill(s: State, a: Action, i: int)
    requires Inv(s) && Enabled(s, a) && a.Refill? && 0 <= i < |Stack(Next(s, a), a.t)|
    ensures Fine(Next(s, a), a.t, i, |Stack(Next(s, a), a.t)|, Stack(Next(s, a), a.t)[i])
  {
    hide Once, Ordered, Finishing, Told;
    BelowIs(s, a.t, |Stack(s, a.t)| - 1);
  }

  lemma OwnPop(s: State, a: Action, i: int)
    requires Inv(s) && Enabled(s, a) && (a.Look? || a.Wake? || a.Hooked? || a.Return?) && 0 <= i < |Stack(Next(s, a), a.t)|
    ensures Fine(Next(s, a), a.t, i, |Stack(Next(s, a), a.t)|, Stack(Next(s, a), a.t)[i])
  {
    hide Once, Ordered, Finishing, Told;
    BelowIs(s, a.t, i);
    BelowIs(s, a.t, |Stack(s, a.t)| - 1);
  }

  lemma OnceCall(s: State, a: Action)
    requires Inv(s) && Enabled(s, a) && a.Call?
    ensures Once(Next(s, a))
  {
    hide Ordered, Finishing, Told, Fine, AllFine, Distinct;
    NextChanges(s, a);
  }

  lemma DistinctMore(l: seq<Callback>, cb: Callback)
    requires Distinct(l) && cb !in l
    ensures Distinct(l + [cb])
  {
  }

  /** A thread's calling frame belongs to one callback, so the others' callers are other threads. */
  lemma OtherCallers(s: State, a: Action, c: Callback)
    requires Once(s) && Enabled(s, a) && a.Enter? && c in s.calling && c != Top(s, a.t).cb
    ensures s.calling[c] != a.t
    ensures Stack(Next(s, a), s.calling[c]) != [] && Top(Next(s, a), s.calling[c]) == Top(s, s.calling[c])
    ensures Top(s, s.calling[c]).Calling? && Top(s, s.calling[c]).cb == c
  {
    hide Distinct;
    NextChanges(s, a);
  }

  lemma OnceEnter(s: State, a: Action)
    requires Inv(s) && Enabled(s, a) && a.Enter?
    ensures Once(Next(s, a))
  {
    hide Finishing, Told, Ordered, Distinct, AllFine;
    BelowIs(s, a.t, |Stack(s, a.t)| - 1);
    var cb, s' := Top(s, a.t).cb, Next(s, a);
    forall c | c in s'.calling
      ensures Stack(s', s'.calling[c]) != [] && Top(s', s'.calling[c]).Calling? && Top(s', s'.calling[c]).cb == c {
      OtherCallers(s, a, c);
    }
    if s.phase == 3 { DistinctMore(s.inline, cb); } else { DistinctMore(s.enqueued, cb); }
    hide Fine, Stack, Top;
  }

  lemma OnceOther(s: State, a: Action)
    requires Inv(s) && Enabled(s, a) && !a.Call? && !a.Enter?
    ensures Once(Next(s, a))
  {
    hide Ordered, Finishing, Told, Fine, AllFine, Distinct;
    NextChanges(s, a);
    OnceSame(s, a);
  }

  lemma OnceSame(s: State, a: Action)
    requires Enabled(s, a) && !a.Call? && !a.Enter?
    ensures Next(s, a).calling == s.calling && Next(s, a).inline == s.inline && Next(s, a).enqueued == s.enqueued
  {
  }

  lemma OnceKeeps(s: State, a: Action)
    requires Inv(s) && Enabled(s, a)
    ensures Once(Next(s, a))
  {
    hide Once, Inv, Enabled;
    match a {
      case Call(_, _, _) => OnceCall(s, a);
      case Enter(_) => OnceEnter(s, a);
      case _ => OnceOther(s, a);
    }
  }

  /** What the drain has taken changes only by its own steps. */
  lemma TakenKeeps(s: State, a: Action)
    requires Inv(s) && Enabled(s, a) && !a.Flush? && !a.RunNext? && !a.Refill?
    ensures Taken(Next(s, a)) == Taken(s)
    ensures s.phase == 2 ==> Stack(Next(s, a), s.drainer) != [] && Stack(Next(s, a), s.drainer)[0].Draining?
  {
    hide Once, Finishing, Told, AllFine, Fine;
    NextChanges(s, a);
    BottomStays(s, a);
  }

  /** Only the drain's own steps touch a draining frame, and none of the others leaves one. */
  lemma BottomStays(s: State, a: Action)
    requires Enabled(s, a) && !a.Flush? && !a.RunNext? && !a.Refill?
    ensures Stack(s, a.t) != [] && Stack(s, a.t)[0].Draining? ==> Stack(Next(s, a), a.t) != [] && Stack(Next(s, a), a.t)[0] == Stack(s, a.t)[0]
    ensures Stack(Next(s, a), a.t) != [] && Stack(Next(s, a), a.t)[0].Draining? ==> Stack(s, a.t) != [] && Stack(s, a.t)[0].Draining?
    ensures Next(s, a).drainer == s.drainer
  {
  }

  lemma OrderedEnter(s: State, a: Action)
    requires Inv(s) && Enabled(s, a) && a.Enter?
    ensures Ordered(Next(s, a))
  {
    hide Once, Finishing, Told, AllFine, Fine, Taken;
    TakenKeeps(s, a);
    NoneTaken(s);
    assert s.started + Taken(s) + (s.queue + [Top(s, a.t).cb]) == (s.started + Taken(s) + s.queue) + [Top(s, a.t).cb];
  }

  lemma NoneTaken(s: State)
    requires Inv(s)
    ensures s.phase != 2 ==> Taken(s) == []
  {
    if s.phase != 2 && Stack(s, s.drainer) != [] { BelowIs(s, s.drainer, 0); }
  }

  lemma OrderedFlush(s: State, a: Action)
    requires Inv(s) && Enabled(s, a) && a.Flush?
    ensures Ordered(Next(s, a))
  {
    hide Once, Finishing, Told, AllFine, Fine;
    NoneTaken(s);
  }

  lemma RunTakes(s: State, a: Action)
    requires AllFine(s) && Enabled(s, a) && a.RunNext?
    ensures a.t == s.drainer && s.phase == 2 && Taken(s) == Top(s, a.t).left
    ensures Taken(Next(s, a)) == Taken(s)[1..] && Next(s, a).started == s.started + [Taken(s)[0]]
    ensures Stack(Next(s, a), s.drainer) != [] && Stack(Next(s, a), s.drainer)[0].Draining?
  {
    hide AllFine;
    BelowIs(s, a.t, |Stack(s, a.t)| - 1);
  }

  lemma OrderedRun(s: State, a: Action)
    requires Inv(s) && Enabled(s, a) && a.RunNext?
    ensures Ordered(Next(s, a))
  {
    hide Once, Finishing, Told, AllFine, Taken;
    RunTakes(s, a);
    var l := Taken(s);
    assert s.started + l + s.queue == s.started + [l[0]] + l[1..] + s.queue;
  }

  /** The end of a drain round: nothing is taken, and the queue is all that is left. */
  lemma RoundOver(s: State, t: Thread)
    requires Inv(s) && Enabled(s, Refill(t))
    ensures t == s.drainer && s.phase == 2 && Stack(s, t) == [Draining([])] && Taken(s) == [] && s.enqueued == s.started + s.queue
    ensures s.inline == []
  {
    hide Once, Finishing, Told, AllFine;
    BelowIs(s, t, |Stack(s, t)| - 1);
    assert Stack(s, t)[0] == Draining([]);
  }

  lemma OrderedRefill(s: State, a: Action)
    requires Inv(s) && Enabled(s, a) && a.Refill?
    ensures Ordered(Next(s, a))
  {
    hide Once, Finishing, Told, AllFine, Fine, Inv, Ordered;
    RoundOver(s, a.t);
    var s' := Next(s, a);
    if s.queue != [] {
      assert Stack(s', s.drainer) == [Draining(s.queue)];
    } else {
      assert Stack(s', s.drainer) == [];
    }
    assert s'.enqueued == s'.started + Taken(s') + s'.queue;
    OrderedIf(s');
  }

  lemma OrderedIf(s: State)
    requires s.enqueued == s.started + Taken(s) + s.queue && 2 <= s.phase <= 3 && s.inline == [] && (s.phase == 3 ==> s.queue == [])
    requires s.phase == 2 ==> Stack(s, s.drainer) != [] && Stack(s, s.drainer)[0].Draining?
    ensures Ordered(s)
  {
  }

  lemma OrderedOther(s: State, a: Action)
    requires Inv(s) && Enabled(s, a) && !a.Enter? && !a.Flush? && !a.RunNext? && !a.Refill?
    ensures Ordered(Next(s, a))
  {
    hide Once, Finishing, Told, AllFine, Fine, Taken;
    TakenKeeps(s, a);
  }

  lemma OrderedKeeps(s: State, a: Action)
    requires Inv(s) && Enabled(s, a)
    ensures Ordered(Next(s, a))
  {
    match a {
      case Enter(_) => OrderedEnter(s, a);
      case Flush(_, _) => OrderedFlush(s, a);
      case RunNext(_) => OrderedRun(s, a);
      case Refill(_) => OrderedRefill(s, a);
      case _ => OrderedOther(s, a);
    }
  }

  /** Starting the next taken callback: what started before has finished, as nothing is above the drain. */
  lemma FinishingRun(s: State, a: Action)
    requires Inv(s) && Enabled(s, a) && a.RunNext?
    ensures Finishing(Next(s, a))
  {
    hide Once, Told, AllFine, Ordered;
    BelowIs(s, a.t, |Stack(s, a.t)| - 1);
  }

  lemma FinishingReturn(s: State, a: Action)
    requires Inv(s) && Enabled(s, a) && a.Return?
    ensures Finishing(Next(s, a))
  {
    hide Once, Told, AllFine, Ordered;
    NextChanges(s, a);
    BelowIs(s, a.t, |Stack(s, a.t)| - 1);
    if |Stack(s, a.t)| > 1 { BelowIs(s, a.t, 1); }
  }

  /** The second frame of a stack goes only with a step of its own or of the drain. */
  lemma SecondStays(s: State, a: Action)
    requires AllFine(s) && Enabled(s, a) && !a.RunNext? && !a.Return?
    requires |Stack(s, a.t)| >= 2 && Stack(s, a.t)[1].Running? && s.phase == 2
    ensures |Stack(Next(s, a), a.t)| >= 2 && Stack(Next(s, a), a.t)[1] == Stack(s, a.t)[1]
    ensures Next(s, a).phase == 2
  {
    hide AllFine;
    BelowIs(s, a.t, |Stack(s, a.t)| - 1);
  }

  lemma FinishedSame(s: State, a: Action)
    requires Enabled(s, a) && !a.RunNext? && !a.Return?
    ensures Next(s, a).started == s.started && Next(s, a).finished == s.finished
    ensures s.inline <= Next(s, a).inline
    ensures !a.Flush? ==> Next(s, a).drainer == s.drainer
    ensures a.Flush? ==> s.phase == 1
  {
  }

  lemma FinishingOther(s: State, a: Action)
    requires Inv(s) && Enabled(s, a) && !a.RunNext? && !a.Return?
    ensures Finishing(Next(s, a))
  {
    hide Once, Told, AllFine, Fine, Ordered, Next, Enabled;
    NextChanges(s, a);
    FinishedSame(s, a);
    if |Stack(s, s.drainer)| >= 2 && s.phase == 2 && Stack(s, s.drainer)[1].Running? {
      if a.t == s.drainer { SecondStays(s, a); } else { DrainGoesOn(s, a); }
    }
  }

  lemma DrainGoesOn(s: State, a: Action)
    requires Inv(s) && Enabled(s, a) && s.phase == 2 && a.t != s.drainer
    ensures Next(s, a).phase == 2 && Next(s, a).drainer == s.drainer
  {
    hide Once, Told, AllFine, Finishing, Ordered;
    if Stack(s, a.t) != [] { BelowIs(s, a.t, |Stack(s, a.t)| - 1); }
  }

  lemma FinishingKeeps(s: State, a: Action)
    requires Inv(s) && Enabled(s, a)
    ensures Finishing(Next(s, a))
  {
    hide *;
    match a {
      case RunNext(_) => FinishingRun(s, a);
      case Return(_) => FinishingReturn(s, a);
      case _ => FinishingOther(s, a);
    }
  }

  lemma ToldKeeps(s: State, a: Action)
    requires Inv(s) && Enabled(s, a)
    ensures Told(Next(s, a))
  {
    hide Once, Finishing, AllFine, Fine, Taken;
  }

  /** Every step keeps the invariant. */
  lemma StepKeeps(s: State, a: Action)
    requires Inv(s) && Enabled(s, a)
    ensures Inv(Next(s, a))
  {
    hide AllFine, Once, Ordered, Finishing, Told, Enabled;
    FramesKeep(s, a);
    OnceKeeps(s, a);
    OrderedKeeps(s, a);
    FinishingKeeps(s, a);
    ToldKeeps(s, a);
  }

  /** A run: each action possible where it is taken. */
  ghost predicate IsRun(s: State, acts: seq<Action>)
    decreases |acts|, 0
  {
    acts == [] || (IsRun(s, acts[..|acts| - 1]) && Enabled(After(s, acts[..|acts| - 1]), acts[|acts| - 1]))
  }

  ghost function After(s: State, acts: seq<Action>): State
    requires IsRun(s, acts)
    decreases |acts|, 1
  {
    if acts == [] then s else Next(After(s, acts[..|acts| - 1]), acts[|acts| - 1])
  }

  /** The invariant holds after every run of every number of threads. */
  lemma {:induction false} Always(acts: seq<Action>)
    requires IsRun(Start(), acts)
    ensures Inv(After(Start(), acts))
  {
    if acts == [] {
      StartHolds();
    } else {
      hide Inv, Enabled;
      Always(acts[..|acts| - 1]);
      StepKeeps(After(Start(), acts[..|acts| - 1]), acts[|acts| - 1]);
    }
  }

  lemma PhaseStep(s: State, a: Action)
    requires Inv(s) && Enabled(s, a)
    ensures s.phase <= Next(s, a).phase <= s.phase + 1 && Next(s, a).phase <= 3
  {
    hide Once, Finishing, Told, Fine, AllFine;
    if a.Refill? { RoundOver(s, a.t); }
  }

  /** The state only moves 0, 1, 2, 3. */
  lemma PhaseMovesOn(acts: seq<Action>, a: Action)
    requires IsRun(Start(), acts) && Enabled(After(Start(), acts), a)
    ensures var s := After(Start(), acts);
            s.phase <= Next(s, a).phase <= s.phase + 1 && Next(s, a).phase <= 3
  {
    hide *;
    Always(acts);
    PhaseStep(After(Start(), acts), a);
  }

  /** No callback is ever run twice, and queued ones start in the order in which they were queued. */
  lemma RunsOnceInOrder(acts: seq<Action>)
    requires IsRun(Start(), acts)
    ensures var s := After(Start(), acts);
            Distinct(s.started + s.inline) && s.started <= s.enqueued && (s.phase == 3 ==> s.queue == [])
  {
    hide AllFine, Finishing, Told;
    Always(acts);
    var s := After(Start(), acts);
    PrefixDistinct(s.started, Taken(s) + s.queue, s.enqueued, s.inline);
  }

  lemma PrefixDistinct(a: seq<Callback>, rest: seq<Callback>, all: seq<Callback>, b: seq<Callback>)
    requires all == a + rest && Distinct(all) && Distinct(b) && forall c :: c in b ==> c !in all
    ensures Distinct(a + b) && a <= all
  {
    forall i, j | 0 <= i < j < |a + b| ensures (a + b)[i] != (a + b)[j] {
      if j < |a| {
        assert all[i] == a[i] && all[j] == a[j];
      } else if i < |a| {
        assert a[i] == all[i] && b[j - |a|] in b;
      }
    }
  }

  /** When the drain is over, every queued callback has been run to its end; and a callback accepted by
      then that is not on its way to the lock was queued or is run by its own caller. */
  lemma NothingLost(acts: seq<Action>, cb: Callback)
    requires IsRun(Start(), acts)
    ensures var s := After(Start(), acts);
            s.phase == 3 ==> (cb in s.enqueued ==> cb in s.started && cb in s.finished)
                             && (Accepted(s, cb) && cb !in s.calling ==> cb in s.finished || cb in s.inline)
  {
    hide AllFine, Once, Told;
    Always(acts);
    var s := After(Start(), acts);
    NoneTaken(s);
  }

  /** What is left to do for the drain if nothing more is scheduled: callbacks on their way to the lock,
      queued, taken, and the drainer's own frames. */
  ghost function Work(s: State): nat {
    8 * |s.calling| + 5 * |s.queue| + 3 * |Taken(s)| + |Stack(s, s.drainer)|
  }

  /** While it lasts, every step of the drainer shortens the drain, and no other step lengthens it but
      a new call. */
  lemma DrainAdvances(s: State, a: Action)
    requires Inv(s) && s.phase == 2 && Enabled(s, a) && !a.Call?
    ensures Work(Next(s, a)) <= Work(s) && Next(s, a).drainer == s.drainer
    ensures a.t == s.drainer ==> Work(Next(s, a)) < Work(s)
  {
    hide Told, Finishing, Once, AllFine;
    var t := a.t;
    BelowIs(s, t, |Stack(s, t)| - 1);
    BelowIs(s, t, 0);
    if a.Enter? { EnterCounts(s, t); }
  }

  lemma EnterCounts(s: State, t: Thread)
    requires Inv(s) && Enabled(s, Enter(t))
    ensures |s.calling - {Top(s, t).cb}| == |s.calling| - 1
  {
    hide Told, Finishing, Once, Ordered, AllFine;
    BelowIs(s, t, |Stack(s, t)| - 1);
    var cb := Top(s, t).cb;
    assert cb in s.calling;
    assert s.calling == (s.calling - {cb})[cb := s.calling[cb]];
  }

  ghost function StepsOf(acts: seq<Action>, t: Thread): nat {
    if acts == [] then 0 else StepsOf(acts[..|acts| - 1], t) + if acts[|acts| - 1].t == t then 1 else 0
  }

  /** The drain ends: unless more is scheduled, the drainer takes no more steps in it than there is work. */
  lemma {:induction false} DrainEnds(s: State, acts: seq<Action>)
    requires Inv(s) && s.phase == 2 && IsRun(s, acts) && After(s, acts).phase == 2
    requires forall i :: 0 <= i < |acts| ==> !acts[i].Call?
    ensures Inv(After(s, acts)) && After(s, acts).drainer == s.drainer
    ensures StepsOf(acts, s.drainer) + Work(After(s, acts)) <= Work(s)
  {
    hide Inv, Enabled, Next, Work;
    if acts != [] {
      var before, a := acts[..|acts| - 1], acts[|acts| - 1];
      PhaseBetween(s, before, a);
      DrainEnds(s, before);
      DrainAdvances(After(s, before), a);
      StepKeeps(After(s, before), a);
    }
  }

  lemma PhaseBetween(s: State, acts: seq<Action>, a: Action)
    requires Inv(s) && s.phase == 2 && IsRun(s, acts) && Enabled(After(s, acts), a) && Next(After(s, acts), a).phase == 2
    ensures After(s, acts).phase == 2
  {
    hide Inv, Enabled, Next;
    PhaseKept(s, acts);
    PhaseStep(After(s, acts), a);
  }

  lemma {:induction false} PhaseKept(s: State, acts: seq<Action>)
    requires Inv(s) && s.phase == 2 && IsRun(s, acts)
    ensures Inv(After(s, acts)) && After(s, acts).phase >= 2
  {
    hide Inv, Enabled, Next;
    if acts != [] {
      var before := acts[..|acts| - 1];
      PhaseKept(s, before);
      PhaseStep(After(s, before), acts[|acts| - 1]);
      StepKeeps(After(s, before), acts[|acts| - 1]);
    }
  }

  /** A thread that waited goes on only after its own callback has run to its end. */
  lemma WaitersSeeTheirOwn(acts: seq<Action>, t: Thread)
    requires IsRun(Start(), acts) && Enabled(After(Start(), acts), Wake(t))
    ensures Top(After(Start(), acts), t).Waiting? && Top(After(Start(), acts), t).cb in After(Start(), acts).finished
  {
    hide AllFine, Once, Told, Fine;
    Always(acts);
    var s := After(Start(), acts);
    BelowIs(s, t, |Stack(s, t)| - 1);
    NoneTaken(s);
  }

  /** The draining thread never waits for itself: as long as it drains it can take a step. */
  lemma DrainerNeverWaits(acts: seq<Action>)
    requires IsRun(Start(), acts)
    ensures var s := After(Start(), acts);
            s.phase == 2 ==> Stack(s, s.drainer) != [] && !Top(s, s.drainer).Waiting? && exists a: Action :: a.t == s.drainer && Enabled(s, a)
  {
    hide *;
    Always(acts);
    DrainerCanStep(After(Start(), acts));
  }

  lemma DrainerCanStep(s: State)
    requires Inv(s)
    ensures s.phase == 2 ==> Stack(s, s.drainer) != [] && !Top(s, s.drainer).Waiting? && exists a: Action :: a.t == s.drainer && Enabled(s, a)
  {
    hide AllFine, Once, Finishing, Told;
    if s.phase == 2 {
      var t := s.drainer;
      BelowIs(s, t, |Stack(s, t)| - 1);
      var a := match Top(s, t)
        case Calling(_, _) => Enter(t)
        case Starting(_) => Hooked(t)
        case Checking(_, _) => Look(t)
        case Waiting(_) => Wake(t)
        case Running(_, _) => Return(t)
        case Draining(l) => if l == [] then Refill(t) else RunNext(t);
      assert Enabled(s, a);
    }
  }

  /** Every callback is told the one published result. */
  lemma ToldTheSame(acts: seq<Action>, a: Callback, b: Callback)
    requires IsRun(Start(), acts)
    ensures var s := After(Start(), acts);
            (a in s.started || a in s.inline) && (b in s.started || b in s.inline) ==> a in s.told && b in s.told && s.told[a] == s.told[b]
  {
    hide AllFine, Once, Finishing, Ordered;
    Always(acts);
  }
}
