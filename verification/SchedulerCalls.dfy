/** What a call of the scheduler means for its caller: when it returns, and what its callback is told. */
module SchedulerCalls {
  import opened Scheduler

  /** A frame of the call that schedules `cb`. */
  predicate OfCall(f: Frame, cb: Callback, pre: bool) {
    match f
    case Calling(c, p) => c == cb && p == pre
    case Checking(c, p) => c == cb && p == pre
    case Starting(c) => c == cb
    case Waiting(c) => c == cb
    case Running(c, queued) => c == cb && !queued
    case Draining(_) => false
  }

  /** The caller has not come back from its call. */
  ghost predicate InCall(s: State, t: Thread, cb: Callback, pre: bool) {
    exists i :: 0 <= i < |Stack(s, t)| && OfCall(Stack(s, t)[i], cb, pre)
  }

  /** What holds from the return on: the callback has run to its end; or it will, and its caller was
      let go because it came before the entry point, because it was the first, or because of the drain. */
  ghost predicate Returned(s: State, cb: Callback, pre: bool) {
    cb in s.finished || (cb in s.enqueued && s.phase < 3 && (pre || cb == s.enqueued[0] || s.phase == 2))
  }

  ghost predicate Settled(s: State, t: Thread, cb: Callback, pre: bool) {
    InCall(s, t, cb, pre) || Returned(s, cb, pre)
  }

  /** The first in the queue sets up the hook, and nobody else does; it never looks and never waits. */
  ghost predicate FirstStarts(s: State) {
    && (s.phase >= 1 ==> s.enqueued != [])
    && (forall t: Thread, i {:trigger Stack(s, t)[i]} :: 0 <= i < |Stack(s, t)| ==> FirstFrame(s, Stack(s, t)[i]))
  }

  predicate FirstFrame(s: State, f: Frame) {
    && (f.Starting? ==> s.enqueued != [] && f.cb == s.enqueued[0])
    && (f.Checking? || f.Waiting? ==> s.enqueued != [] && f.cb != s.enqueued[0])
  }

  lemma FirstKeeps(s: State, a: Action)
    requires Inv(s) && FirstStarts(s) && Enabled(s, a)
    ensures FirstStarts(Next(s, a))
  {
    hide Inv, Enabled, Next;
    var s' := Next(s, a);
    NextChanges(s, a);
    QueueGrows(s, a);
    PhaseBegins(s, a);
    forall t: Thread, i {:trigger Stack(s', t)[i]} | 0 <= i < |Stack(s', t)| ensures FirstFrame(s', Stack(s', t)[i]) {
      if t == a.t {
        OwnFirst(s, a, i);
      } else {
        assert FirstFrame(s, Stack(s, t)[i]);
      }
    }
  }

  lemma PhaseBegins(s: State, a: Action)
    requires Inv(s) && Enabled(s, a) && (s.phase >= 1 ==> s.enqueued != [])
    ensures Next(s, a).phase >= 1 ==> Next(s, a).enqueued != []
  {
    if a.Refill? { TopIs(s, a.t); }
    hide Inv, Accepted;
  }

  /** A step leaves a thread's frames below the innermost one as they are. */
  lemma OwnFirst(s: State, a: Action, i: int)
    requires Inv(s) && FirstStarts(s) && Enabled(s, a) && 0 <= i < |Stack(Next(s, a), a.t)|
    ensures FirstFrame(Next(s, a), Stack(Next(s, a), a.t)[i])
  {
    hide Inv, Enabled, Next, FirstFrame;
    if i < |Stack(s, a.t)| - 1 {
      LowerStays(s, a, i);
      FirstSame(s, a, Stack(s, a.t)[i]);
    } else {
      InnermostFirst(s, a, i);
    }
  }

  /** Only the two looks at the queue leave a frame of the three kinds. */
  lemma InnermostFirst(s: State, a: Action, i: int)
    requires Inv(s) && FirstStarts(s) && Enabled(s, a) && |Stack(s, a.t)| - 1 <= i && 0 <= i < |Stack(Next(s, a), a.t)|
    ensures FirstFrame(Next(s, a), Stack(Next(s, a), a.t)[i])
  {
    hide Inv, FirstStarts, Enabled, Next;
    if a.Enter? {
      EnterFirst(s, a);
    } else if a.Look? {
      LookFirst(s, a);
    } else {
      OtherKinds(s, a, i);
    }
  }

  lemma OtherKinds(s: State, a: Action, i: int)
    requires Enabled(s, a) && !a.Enter? && !a.Look? && |Stack(s, a.t)| - 1 <= i && 0 <= i < |Stack(Next(s, a), a.t)|
    ensures var f := Stack(Next(s, a), a.t)[i]; f.Running? || f.Calling? || f.Draining?
  {
    hide Accepted;
  }

  lemma EnterFirst(s: State, a: Action)
    requires Inv(s) && FirstStarts(s) && Enabled(s, a) && a.Enter?
    ensures |Stack(Next(s, a), a.t)| == |Stack(s, a.t)| && FirstFrame(Next(s, a), Top(Next(s, a), a.t))
  {
    NothingQueued(s);
    NotQueued(s, a.t);
    hide Inv;
  }

  lemma NotQueued(s: State, t: Thread)
    requires Inv(s) && Stack(s, t) != [] && Top(s, t).Calling?
    ensures Top(s, t).cb !in s.enqueued
  {
    hide Finishing, Told, Ordered;
    BelowIs(s, t, |Stack(s, t)| - 1);
  }

  lemma LookFirst(s: State, a: Action)
    requires FirstStarts(s) && Enabled(s, a) && a.Look?
    ensures |Stack(Next(s, a), a.t)| <= |Stack(s, a.t)|
    ensures |Stack(Next(s, a), a.t)| == |Stack(s, a.t)| ==> FirstFrame(Next(s, a), Top(Next(s, a), a.t))
  {
    assert FirstFrame(s, Stack(s, a.t)[|Stack(s, a.t)| - 1]);
  }

  lemma FirstSame(s: State, a: Action, f: Frame)
    requires Enabled(s, a) && FirstFrame(s, f)
    ensures FirstFrame(Next(s, a), f)
  {
    hide Enabled, Next;
    QueueGrows(s, a);
  }

  lemma NothingQueued(s: State)
    requires Inv(s)
    ensures s.phase == 0 ==> s.enqueued == []
  {
  }

  lemma QueueGrows(s: State, a: Action)
    requires Enabled(s, a)
    ensures s.enqueued <= Next(s, a).enqueued && s.finished <= Next(s, a).finished
  {
    hide Accepted, Stack;
  }

  lemma AllFinished(s: State)
    requires Inv(s) && s.phase == 3
    ensures forall cb :: cb in s.enqueued ==> cb in s.finished
  {
    hide AllFine, Once, Told;
    NoneTaken(s);
  }

  lemma ReturnedKeeps(s: State, a: Action, cb: Callback, pre: bool)
    requires Inv(s) && Enabled(s, a) && Returned(s, cb, pre)
    ensures Returned(Next(s, a), cb, pre)
  {
    hide Inv, Enabled, Next;
    var s' := Next(s, a);
    QueueGrows(s, a);
    PhaseStep(s, a);
    StepKeeps(s, a);
    if s'.phase == 3 { AllFinished(s'); }
  }

  /** Frames below the innermost one stay as they are. */
  lemma LowerStays(s: State, a: Action, i: int)
    requires Inv(s) && Enabled(s, a) && 0 <= i < |Stack(s, a.t)| && (i < |Stack(s, a.t)| - 1 || a.Call?)
    ensures i < |Stack(Next(s, a), a.t)| && Stack(Next(s, a), a.t)[i] == Stack(s, a.t)[i]
  {
    hide AllFine, Once, Finishing, Told, Ordered;
  }

  /** What the innermost frame says of the state. */
  lemma TopIs(s: State, t: Thread)
    requires Inv(s) && Stack(s, t) != []
    ensures Fine(s, t, |Stack(s, t)| - 1, |Stack(s, t)|, Top(s, t))
  {
    hide Once, Finishing, Told, Ordered;
    BelowIs(s, t, |Stack(s, t)| - 1);
  }

  ghost predicate Innermost(s: State, t: Thread, cb: Callback, pre: bool) {
    Stack(s, t) != [] && OfCall(Top(s, t), cb, pre)
  }

  lemma InnermostInCall(s: State, t: Thread, cb: Callback, pre: bool)
    requires Innermost(s, t, cb, pre)
    ensures InCall(s, t, cb, pre)
  {
    assert OfCall(Stack(s, t)[|Stack(s, t)| - 1], cb, pre);
  }

  lemma OwnEnters(s: State, a: Action, cb: Callback, pre: bool)
    requires Inv(s) && Enabled(s, a) && a.Enter? && Innermost(s, a.t, cb, pre)
    ensures Innermost(Next(s, a), a.t, cb, pre)
  {
    hide AllFine, Once, Finishing, Told, Ordered, Fine;
  }

  lemma OwnLooks(s: State, a: Action, cb: Callback, pre: bool)
    requires Inv(s) && Enabled(s, a) && a.Look? && Innermost(s, a.t, cb, pre)
    ensures Innermost(Next(s, a), a.t, cb, pre) || (cb in s.enqueued && (pre || s.phase == 2))
    ensures Next(s, a).phase == s.phase && Next(s, a).enqueued == s.enqueued && Next(s, a).finished == s.finished
  {
    TopIs(s, a.t);
    hide AllFine, Once, Finishing, Told, Ordered;
  }

  lemma OwnReturns(s: State, a: Action, cb: Callback, pre: bool)
    requires Inv(s) && Enabled(s, a) && a.Return? && Innermost(s, a.t, cb, pre)
    ensures cb in Next(s, a).finished
  {
    hide AllFine, Once, Finishing, Told, Ordered, Fine;
  }

  /** The first caller goes on; and so does one that has waited. */
  lemma OwnGoesOn(s: State, a: Action, cb: Callback, pre: bool)
    requires Inv(s) && FirstStarts(s) && Enabled(s, a) && (a.Wake? || a.Hooked? || a.Flush?) && Innermost(s, a.t, cb, pre)
    ensures cb in Next(s, a).enqueued && (Next(s, a).phase < 3 ==> cb == Next(s, a).enqueued[0])
  {
    TopIs(s, a.t);
    hide AllFine, Once, Finishing, Told, Ordered;
    assert Stack(s, a.t)[|Stack(s, a.t)| - 1] == Top(s, a.t);
  }

  /** The caller's own steps. */
  lemma OwnStep(s: State, a: Action, cb: Callback, pre: bool, i: int)
    requires Inv(s) && FirstStarts(s) && Enabled(s, a) && 0 <= i < |Stack(s, a.t)| && OfCall(Stack(s, a.t)[i], cb, pre)
    ensures Settled(Next(s, a), a.t, cb, pre)
  {
    hide Inv, FirstStarts, Enabled, Next, OfCall;
    var s' := Next(s, a);
    StepKeeps(s, a);
    PhaseStep(s, a);
    if s'.phase == 3 { AllFinished(s'); }
    if i < |Stack(s, a.t)| - 1 || a.Call? {
      LowerStays(s, a, i);
    } else {
      OwnTop(s, a, cb, pre);
      if Innermost(s', a.t, cb, pre) { InnermostInCall(s', a.t, cb, pre); }
    }
  }

  lemma OwnTop(s: State, a: Action, cb: Callback, pre: bool)
    requires Inv(s) && FirstStarts(s) && Enabled(s, a) && Innermost(s, a.t, cb, pre) && !a.Call?
    ensures var s' := Next(s, a);
            || Innermost(s', a.t, cb, pre) || cb in s'.finished
            || (cb in s'.enqueued && (s'.phase < 3 ==> pre || cb == s'.enqueued[0] || s'.phase == 2))
  {
    hide Inv, FirstStarts, Next;
    match a {
      case Enter(_) => OwnEnters(s, a, cb, pre);
      case Look(_) => OwnLooks(s, a, cb, pre);
      case Return(_) => OwnReturns(s, a, cb, pre);
      case RunNext(_) =>
      case Refill(_) =>
      case _ => OwnGoesOn(s, a, cb, pre);
    }
  }

  lemma SettledKeeps(s: State, a: Action, t: Thread, cb: Callback, pre: bool)
    requires Inv(s) && FirstStarts(s) && Enabled(s, a) && Settled(s, t, cb, pre)
    ensures Settled(Next(s, a), t, cb, pre)
  {
    hide Inv, FirstStarts, Enabled, Next, OfCall, Returned;
    NextChanges(s, a);
    if Returned(s, cb, pre) {
      ReturnedKeeps(s, a, cb, pre);
    } else {
      var i :| 0 <= i < |Stack(s, t)| && OfCall(Stack(s, t)[i], cb, pre);
      if t == a.t { OwnStep(s, a, cb, pre, i); } else { assert OfCall(Stack(Next(s, a), t)[i], cb, pre); }
    }
  }

  lemma CallBegins(s: State, t: Thread, cb: Callback, pre: bool)
    requires Enabled(s, Call(t, cb, pre))
    ensures Innermost(Next(s, Call(t, cb, pre)), t, cb, pre)
  {
  }

  /** Every call, in every run: the caller is still in it, or its callback has run to its end, or it will, and the
      caller came before the entry point, was the first, or met the drain. */
  lemma {:induction false} CallsReturn(acts: seq<Action>, t: Thread, cb: Callback, pre: bool)
    requires IsRun(Start(), acts) && Call(t, cb, pre) in acts
    ensures Settled(After(Start(), acts), t, cb, pre)
  {
    hide *;
    RunParts(acts);
    var before, a := acts[..|acts| - 1], acts[|acts| - 1];
    var s := After(Start(), before);
    assert acts == before + [a];
    if Call(t, cb, pre) in before {
      CallsReturn(before, t, cb, pre);
      Always(before);
      AlwaysFirst(before);
      SettledKeeps(s, a, t, cb, pre);
    } else {
      CallBegins(s, t, cb, pre);
      InnermostInCall(Next(s, a), t, cb, pre);
      InCallSettles(Next(s, a), t, cb, pre);
    }
  }

  lemma InCallSettles(s: State, t: Thread, cb: Callback, pre: bool)
    requires InCall(s, t, cb, pre)
    ensures Settled(s, t, cb, pre)
  {
  }

  lemma RunParts(acts: seq<Action>)
    requires IsRun(Start(), acts) && acts != []
    ensures IsRun(Start(), acts[..|acts| - 1]) && Enabled(After(Start(), acts[..|acts| - 1]), acts[|acts| - 1])
    ensures After(Start(), acts) == Next(After(Start(), acts[..|acts| - 1]), acts[|acts| - 1])
  {
    hide Enabled, Next;
  }

  /** In every run the first in the queue, and nobody else, sets up the hook; it never waits for the drain. */
  lemma {:induction false} AlwaysFirst(acts: seq<Action>)
    requires IsRun(Start(), acts)
    ensures FirstStarts(After(Start(), acts))
  {
    hide Inv, Enabled, Next;
    if acts != [] {
      Always(acts[..|acts| - 1]);
      AlwaysFirst(acts[..|acts| - 1]);
      FirstKeeps(After(Start(), acts[..|acts| - 1]), acts[|acts| - 1]);
    }
  }

  /** The thread waits for `cb`, or need not any more. */
  ghost predicate Held(s: State, t: Thread, cb: Callback) {
    cb in s.finished || (cb in s.enqueued && Stack(s, t) != [] && Top(s, t) == Waiting(cb))
  }

  lemma HeldKeeps(s: State, a: Action, t: Thread, cb: Callback)
    requires Inv(s) && Enabled(s, a) && Held(s, t, cb)
    ensures Held(Next(s, a), t, cb) && (a.t == t ==> cb in s.finished)
  {
    hide Inv, Next;
    NextChanges(s, a);
    QueueGrows(s, a);
    if cb !in s.finished && a.t == t { AllFinished(s); }
  }

  /** Whoever looks after the entry point, and not during the drain, takes no further step before its callback
      has run to its end. */
  lemma {:induction false} LateCallersWait(acts: seq<Action>, t: Thread, more: seq<Action>, a: Action)
    requires IsRun(Start(), acts) && Enabled(After(Start(), acts), Look(t))
    requires var s := After(Start(), acts); !Top(s, t).pre && s.phase != 2
    requires IsRun(Start(), acts + [Look(t)] + more) && Enabled(After(Start(), acts + [Look(t)] + more), a) && a.t == t
    ensures Top(After(Start(), acts), t).cb in After(Start(), acts + [Look(t)] + more).finished
  {
    hide Inv, Next, IsRun, After, Held;
    var cb := Top(After(Start(), acts), t).cb;
    LaterHeld(acts, t, more);
    Always(acts + [Look(t)] + more);
    HeldKeeps(After(Start(), acts + [Look(t)] + more), a, t, cb);
  }

  lemma {:induction false} LaterHeld(acts: seq<Action>, t: Thread, more: seq<Action>)
    requires IsRun(Start(), acts) && Enabled(After(Start(), acts), Look(t))
    requires var s := After(Start(), acts); !Top(s, t).pre && s.phase != 2
    requires IsRun(Start(), acts + [Look(t)] + more)
    ensures Held(After(Start(), acts + [Look(t)] + more), t, Top(After(Start(), acts), t).cb)
    decreases |more|
  {
    hide Inv, Next, IsRun, After, Held;
    var run, cb := acts + [Look(t)] + more, Top(After(Start(), acts), t).cb;
    RunParts(run);
    Always(run[..|run| - 1]);
    if more == [] {
      assert run[..|run| - 1] == acts;
      LookWaits(After(Start(), acts), t);
    } else {
      assert run[..|run| - 1] == acts + [Look(t)] + more[..|more| - 1];
      LaterHeld(acts, t, more[..|more| - 1]);
      HeldKeeps(After(Start(), run[..|run| - 1]), run[|run| - 1], t, cb);
    }
  }

  /** The look at the state decides: the caller waits, or has come back from its call at once. */
  lemma LookWaits(s: State, t: Thread)
    requires Inv(s) && Enabled(s, Look(t))
    ensures !Top(s, t).pre && s.phase != 2 ==> Held(Next(s, Look(t)), t, Top(s, t).cb)
    ensures Top(s, t).pre || s.phase == 2 ==> Stack(Next(s, Look(t)), t) == Below(s, t)
  {
    TopIs(s, t);
    hide AllFine, Once, Finishing, Told, Ordered;
  }

  /** The drain publishes the result it was given, and every callback is told that. */
  lemma {:induction false} ToldTheResult(acts: seq<Action>, t: Thread, result: bool)
    requires IsRun(Start(), acts) && Flush(t, result) in acts
    ensures var s := After(Start(), acts);
            && s.phase >= 2 && s.detected == result && s.drainer == t
            && forall cb :: cb in s.started || cb in s.inline ==> cb in s.told && s.told[cb] == result
  {
    hide *;
    Always(acts);
    RunParts(acts);
    var before, a := acts[..|acts| - 1], acts[|acts| - 1];
    Always(before);
    assert acts == before + [a];
    if Flush(t, result) in before { ToldTheResult(before, t, result); }
    ResultKeeps(After(Start(), before), a);
    ToldIs(After(Start(), acts));
  }

  lemma ResultKeeps(s: State, a: Action)
    requires Inv(s) && Enabled(s, a)
    ensures s.phase >= 2 ==> Next(s, a).phase >= 2 && Next(s, a).detected == s.detected && Next(s, a).drainer == s.drainer
    ensures a.Flush? ==> Next(s, a).phase == 2 && Next(s, a).detected == a.result && Next(s, a).drainer == a.t
  {
    PhaseStep(s, a);
  }

  lemma ToldIs(s: State)
    requires Inv(s)
    ensures forall cb :: cb in s.started || cb in s.inline ==> cb in s.told && s.told[cb] == s.detected
  {
  }

  /** No thread is ever stuck: it is idle or inside a callback and can schedule, or it can go on with what it does,
      or it waits for a drain that is not over; and as long as none has begun, an idle thread can begin it. */
  lemma NoneStuck(acts: seq<Action>, t: Thread, cb: Callback, pre: bool, result: bool)
    requires IsRun(Start(), acts)
    ensures var s := After(Start(), acts);
            && (!Accepted(s, cb) && (Stack(s, t) == [] || Top(s, t).Running?) ==> Enabled(s, Call(t, cb, pre)))
            && (Stack(s, t) != [] && !(Top(s, t).Waiting? && s.phase < 3) ==> exists a: Action :: a.t == t && !a.Call? && Enabled(s, a))
            && (s.phase == 1 && (Stack(s, t) == [] || Top(s, t).Starting?) ==> Enabled(s, Flush(t, result)))
  {
    Always(acts);
    var s := After(Start(), acts);
    PhaseIs(s);
    if Stack(s, t) != [] {
      TopIs(s, t);
      var a := match Top(s, t)
        case Calling(_, _) => Enter(t)
        case Starting(_) => Hooked(t)
        case Checking(_, _) => Look(t)
        case Waiting(_) => Wake(t)
        case Running(_, _) => Return(t)
        case Draining(l) => if l == [] then Refill(t) else RunNext(t);
      hide AllFine, Once, Finishing, Told, Ordered;
      assert a.t == t && (Enabled(s, a) || (Top(s, t).Waiting? && s.phase < 3));
    }
  }

  lemma PhaseIs(s: State)
    requires Inv(s)
    ensures s.phase <= 3
  {
  }
}
