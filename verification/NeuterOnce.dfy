/** The one-time neutralisation: the first thread to ask does the work and publishes the result,
    everyone else waits for it. */
module NeuterOnce {

  type Thread = nat
  type Outcome = int

  datatype Place = Away | Working | Waiting | Reading | Has(result: Outcome)

  datatype State = State(phase: nat, result: Outcome, places: map<Thread, Place>, worker: Thread, done: nat)

  function At(s: State, t: Thread): Place {
    if t in s.places then s.places[t] else Away
  }

  datatype Action = Ask(t: Thread) | Publish(t: Thread, result: Outcome) | Wake(t: Thread) | Read(t: Thread)

  predicate Enabled(s: State, a: Action) {
    match a
    case Ask(t) => At(s, t) == Away || At(s, t).Has?
    case Publish(t, _) => At(s, t) == Working
    case Wake(t) => At(s, t) == Waiting && s.phase == 2
    case Read(t) => At(s, t) == Reading
  }

  /** `get_neuter_result`, one locked section or one wait at a time. */
  function Next(s: State, a: Action): State
    requires Enabled(s, a)
  {
    match a
    case Ask(t) =>
      if s.phase == 0 then s.(phase := 1, worker := t, places := s.places[t := Working])
      else s.(places := s.places[t := Waiting])
    case Publish(t, r) => s.(phase := 2, result := r, places := s.places[t := Reading], done := s.done + 1)
    case Wake(t) => s.(places := s.places[t := Reading])
    case Read(t) => s.(places := s.places[t := Has(s.result)])
  }

  ghost predicate Inv(s: State) {
    && s.phase <= 2 && s.done == (if s.phase == 2 then 1 else 0)
    && (s.phase == 1 ==> At(s, s.worker) == Working)
    && (forall t: Thread :: At(s, t) == Working ==> s.phase == 1 && t == s.worker)
    && (forall t: Thread :: At(s, t) == Waiting ==> s.phase >= 1)
    && (forall t: Thread :: At(s, t) == Reading ==> s.phase == 2)
    && (forall t: Thread :: At(s, t).Has? ==> s.phase == 2 && At(s, t).result == s.result)
  }

  function Start(): State { State(0, 0, map[], 0, 0) }

  lemma StepKeeps(s: State, a: Action)
    requires Inv(s) && Enabled(s, a)
    ensures Inv(Next(s, a))
    ensures s.phase == 2 ==> Next(s, a).result == s.result && Next(s, a).phase == 2
  {
    var s' := Next(s, a);
    forall t: Thread ensures t != a.t ==> At(s', t) == At(s, t) {}
  }

  ghost predicate IsRun(s: State, acts: seq<Action>)
    decreases |acts|, 0
  {
    acts == [] || (IsRun(s, acts[..|acts| - 1]) && Enabled(After(s, acts[..|acts| - 1]), acts[|acts| - 1]))
  }

  ghost function After(s: State, acts: seq<Action>): State
    requires IsRun(s, acts)
    decreases |acts|, 1
  {
    if acts == [] then s else Next(After(s, acts[..|acts| - 1]), acts[|acts| - 1])
  }

  lemma {:induction false} Always(acts: seq<Action>)
    requires IsRun(Start(), acts)
    ensures Inv(After(Start(), acts))
  {
    if acts != [] {
      Always(acts[..|acts| - 1]);
      StepKeeps(After(Start(), acts[..|acts| - 1]), acts[|acts| - 1]);
    }
  }

  /** The work is done at most once, and all threads that get a result get the same one. */
  lemma OneResult(acts: seq<Action>, t: Thread, u: Thread)
    requires IsRun(Start(), acts)
    ensures var s := After(Start(), acts);
            s.done <= 1 && (At(s, t).Has? && At(s, u).Has? ==> At(s, t).result == At(s, u).result && s.done == 1)
  {
    Always(acts);
  }

  /** All of them get the result that was published. */
  lemma {:induction false} PublishedResult(acts: seq<Action>, t: Thread, result: Outcome, u: Thread)
    requires IsRun(Start(), acts) && Publish(t, result) in acts
    ensures var s := After(Start(), acts);
            s.phase == 2 && s.result == result && (At(s, u).Has? ==> At(s, u).result == result)
  {
    var before, a := acts[..|acts| - 1], acts[|acts| - 1];
    assert acts == before + [a];
    Always(acts);
    Always(before);
    if Publish(t, result) in before { PublishedResult(before, t, result, u); }
    hide Enabled, Inv;
    StepKeeps(After(Start(), before), a);
  }

  /** Every thread can go on: one that has asked gets on to a result, whoever else does nothing. */
  lemma CanGoOn(acts: seq<Action>, t: Thread, r: Outcome)
    requires IsRun(Start(), acts)
    ensures var s := After(Start(), acts);
            && (At(s, t) == Away || At(s, t).Has? ==> Enabled(s, Ask(t)))
            && (At(s, t) == Working ==> Enabled(s, Publish(t, r)) && At(Next(s, Publish(t, r)), t) == Reading)
            && (At(s, t) == Reading ==> Enabled(s, Read(t)) && At(Next(s, Read(t)), t) == Has(s.result))
            && (At(s, t) == Waiting && s.phase == 2 ==> Enabled(s, Wake(t)) && At(Next(s, Wake(t)), t) == Reading)
  {
  }

  /** A waiting thread never waits in vain: the work is under way or published, and the thread at
      work is not the one that waits. */
  lemma WaitEnds(acts: seq<Action>, t: Thread)
    requires IsRun(Start(), acts) && At(After(Start(), acts), t) == Waiting
    ensures var s := After(Start(), acts);
            Enabled(s, Wake(t)) || (s.worker != t && forall r: Outcome :: Enabled(s, Publish(s.worker, r)))
  {
    Always(acts);
  }
}
