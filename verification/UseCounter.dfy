/** The use-counted handle on the Rust object: `callWithPointer` and `destroy` by any number of
    threads, interleaved at each atomic operation. */
module UseCounter {

  const LONG_MAX := 0x7FFF_FFFF_FFFF_FFFF

  /** What a thread is about to do. */
  datatype Thread =
    | CallReads                  // read the counter
    | CallSwaps(seen: int)       // compare-and-set from the value read
    | CallRuns                   // counted in; running the block
    | CallRefused                // counter was zero: already destroyed
    | CallOverflows              // counter was at its maximum
    | DestroyFlips               // compare-and-set the flag
    | DestroyDecrements          // first to flip it
    | Cleans                     // its decrement reached zero
    | Finished

  /** `released` (destroy has decremented) and `cleaned` (how often the object was freed) are
      history. */
  datatype State = State(
    callCounter: int,
    wasDestroyed: bool,
    threads: map<nat, Thread>,
    released: bool,
    cleaned: nat
  )

  datatype Step = StartCall(t: nat) | StartDestroy(t: nat) | Proceed(t: nat)

  predicate Initial(s: State) {
    s == State(1, false, map[], false, 0)
  }

  predicate Enabled(s: State, step: Step) {
    match step
    case StartCall(t) => t !in s.threads
    case StartDestroy(t) => t !in s.threads
    case Proceed(t) => t in s.threads && s.threads[t] !in {CallRefused, CallOverflows, Finished}
  }

  function Becomes(s: State, t: nat, next: Thread): State {
    s.(threads := s.threads[t := next])
  }

  /** `decrementAndGet`, then the test for zero. */
  function Decremented(s: State, t: nat): State {
    Becomes(s.(callCounter := s.callCounter - 1), t, if s.callCounter - 1 == 0 then Cleans else Finished)
  }

  function Next(s: State, step: Step): State
    requires Enabled(s, step)
  {
    match step
    case StartCall(t) => Becomes(s, t, CallReads)
    case StartDestroy(t) => Becomes(s, t, DestroyFlips)
    case Proceed(t) =>
      match s.threads[t]
      case CallReads =>
        if s.callCounter == 0 then Becomes(s, t, CallRefused)
        else if s.callCounter == LONG_MAX then Becomes(s, t, CallOverflows)
        else Becomes(s, t, CallSwaps(s.callCounter))
      case CallSwaps(seen) =>
        if s.callCounter == seen then Becomes(s.(callCounter := seen + 1), t, CallRuns)
        else Becomes(s, t, CallReads)
      case CallRuns => Decremented(s, t)
      case DestroyFlips =>
        if s.wasDestroyed then Becomes(s, t, Finished)
        else Becomes(s.(wasDestroyed := true), t, DestroyDecrements)
      case DestroyDecrements => Decremented(s, t).(released := true)
      case Cleans => Becomes(s.(cleaned := s.cleaned + 1), t, Finished)
      case _ => s
  }

  ghost predicate Run(states: seq<State>, steps: seq<Step>) {
    && |states| == |steps| + 1
    && Initial(states[0])
    && forall i :: 0 <= i < |steps| ==> Enabled(states[i], steps[i]) && states[i + 1] == Next(states[i], steps[i])
  }

  function At(s: State, p: Thread): set<nat> {
    set t | t in s.threads && s.threads[t] == p
  }

  /** The counter is the calls in flight, plus one until destroy has decremented. Exactly one
      thread destroys, and freeing is triggered once, as the counter reaches zero. */
  ghost predicate Safe(s: State) {
    && s.callCounter == |At(s, CallRuns)| + (if s.released then 0 else 1)
    && s.callCounter <= LONG_MAX
    && (forall t :: t in s.threads && s.threads[t].CallSwaps? ==> 0 < s.threads[t].seen < LONG_MAX)
    && |At(s, DestroyDecrements)| == (if s.wasDestroyed && !s.released then 1 else 0)
    && (s.released ==> s.wasDestroyed)
    && s.cleaned + |At(s, Cleans)| == (if s.callCounter == 0 then 1 else 0)
  }

  /** Moving one thread moves it between the counted sets. */
  lemma MoveCounts(s: State, s': State, t: nat, next: Thread, p: Thread)
    requires s'.threads == s.threads[t := next]
    ensures var was := t in s.threads && s.threads[t] == p;
      |At(s', p)| == |At(s, p)| + (if next == p then 1 else 0) - (if was then 1 else 0)
  {
    var without := At(s, p) - {t};
    assert At(s', p) == if next == p then without + {t} else without;
    assert At(s, p) == if t in s.threads && s.threads[t] == p then without + {t} else without;
  }

  lemma MoveAllCounts(s: State, s': State, t: nat)
    requires t in s'.threads && s'.threads == s.threads[t := s'.threads[t]]
    ensures |At(s', CallRuns)| == |At(s, CallRuns)| + Here(s', t, CallRuns) - Here(s, t, CallRuns)
    ensures |At(s', DestroyDecrements)|
         == |At(s, DestroyDecrements)| + Here(s', t, DestroyDecrements) - Here(s, t, DestroyDecrements)
    ensures |At(s', Cleans)| == |At(s, Cleans)| + Here(s', t, Cleans) - Here(s, t, Cleans)
  {
    MoveCounts(s, s', t, s'.threads[t], CallRuns);
    MoveCounts(s, s', t, s'.threads[t], DestroyDecrements);
    MoveCounts(s, s', t, s'.threads[t], Cleans);
  }

  function Here(s: State, t: nat, p: Thread): int {
    if t in s.threads && s.threads[t] == p then 1 else 0
  }

  lemma StartIsSafe(s: State, step: Step)
    requires Safe(s) && Enabled(s, step) && !step.Proceed?
    ensures Safe(Next(s, step))
  {
    MoveAllCounts(s, Next(s, step), step.t);
  }

  lemma EnteringIsSafe(s: State, t: nat)
    requires Safe(s) && Enabled(s, Proceed(t)) && (s.threads[t].CallReads? || s.threads[t].CallSwaps?)
    ensures Safe(Next(s, Proceed(t)))
  {
    MoveAllCounts(s, Next(s, Proceed(t)), t);
  }

  lemma DecrementIsSafe(s: State, t: nat)
    requires Safe(s) && Enabled(s, Proceed(t)) && (s.threads[t].CallRuns? || s.threads[t].DestroyDecrements?)
    ensures Safe(Next(s, Proceed(t)))
  {
    MoveAllCounts(s, Next(s, Proceed(t)), t);
    assert s.threads[t].CallRuns? ==> t in At(s, CallRuns);
    assert s.threads[t].DestroyDecrements? ==> t in At(s, DestroyDecrements);
  }

  lemma FlipOrCleanIsSafe(s: State, t: nat)
    requires Safe(s) && Enabled(s, Proceed(t)) && (s.threads[t].DestroyFlips? || s.threads[t].Cleans?)
    ensures Safe(Next(s, Proceed(t)))
  {
    MoveAllCounts(s, Next(s, Proceed(t)), t);
  }

  lemma SafeStep(s: State, step: Step)
    requires Safe(s) && Enabled(s, step)
    ensures Safe(Next(s, step))
  {
    match step {
      case StartCall(_) => StartIsSafe(s, step);
      case StartDestroy(_) => StartIsSafe(s, step);
      case Proceed(t) =>
        if s.threads[t].CallReads? || s.threads[t].CallSwaps? {
          EnteringIsSafe(s, t);
        } else if s.threads[t].CallRuns? || s.threads[t].DestroyDecrements? {
          DecrementIsSafe(s, t);
        } else {
          FlipOrCleanIsSafe(s, t);
        }
    }
  }

  lemma {:induction false} AlwaysSafe(states: seq<State>, steps: seq<Step>, i: nat)
    requires Run(states, steps) && i < |states|
    ensures Safe(states[i])
  {
    if i > 0 {
      AlwaysSafe(states, steps, i - 1);
      assert Enabled(states[i - 1], steps[i - 1]);
      SafeStep(states[i - 1], steps[i - 1]);
    }
  }

  /** In every interleaving: the object is freed at most once, never while a call runs, and
      once freed no call ever enters. */
  lemma FreedOnceAndUnused(states: seq<State>, steps: seq<Step>, i: nat, j: nat)
    requires Run(states, steps) && i <= j < |states|
    ensures states[i].cleaned <= 1
    ensures states[i].cleaned == 1 || At(states[i], Cleans) != {} ==> At(states[j], CallRuns) == {}
    ensures states[i].cleaned == 1 ==> states[i].wasDestroyed && states[j].cleaned == 1
    decreases j - i
  {
    AlwaysSafe(states, steps, i);
    var s := states[i];
    if s.cleaned == 1 || At(s, Cleans) != {} {
      assert s.callCounter == 0;
      if i < j {
        assert Enabled(s, steps[i]) && states[i + 1] == Next(s, steps[i]);
        ZeroStays(s, steps[i]);
        FreedOnceAndUnused(states, steps, i + 1, j);
      }
    }
  }

  lemma ZeroStays(s: State, step: Step)
    requires Safe(s) && Enabled(s, step) && s.callCounter == 0
    ensures Next(s, step).callCounter == 0
    ensures Next(s, step).cleaned == 1 || At(Next(s, step), Cleans) != {}
    ensures s.cleaned == 1 ==> Next(s, step).cleaned == 1
  {
    SafeStep(s, step);
    assert At(s, CallRuns) == {};
    if step.Proceed? {
      assert s.threads[step.t] == CallRuns ==> step.t in At(s, CallRuns);
      assert s.threads[step.t] == DestroyDecrements ==> step.t in At(s, DestroyDecrements);
      assert s.threads[step.t] == Cleans ==> step.t in At(s, Cleans);
    }
  }

  /** When everything has come to rest after a destroy, the object has been freed. */
  lemma QuiescentMeansFreed(states: seq<State>, steps: seq<Step>, i: nat)
    requires Run(states, steps) && i < |states| && states[i].wasDestroyed
    requires forall t :: t in states[i].threads ==> !Enabled(states[i], Proceed(t))
    ensures states[i].cleaned == 1
  {
    AlwaysSafe(states, steps, i);
    assert At(states[i], CallRuns) == {} && At(states[i], DestroyDecrements) == {} && At(states[i], Cleans) == {};
  }

  // ---------------------------------------------------------------------------
  // What a call and a destroy do
  // ---------------------------------------------------------------------------

  /** The state with one thread moved on and another counter. */
  function With(s: State, t: nat, next: Thread, callCounter: int): State {
    s.(threads := s.threads[t := next], callCounter := callCounter)
  }

  /** Any new thread can start a call or a destroy, and any thread that has not ended can go on. */
  lemma WhatCanHappen(s: State, t: nat)
    ensures t !in s.threads ==>
      && Enabled(s, StartCall(t)) && Next(s, StartCall(t)) == With(s, t, CallReads, s.callCounter)
      && Enabled(s, StartDestroy(t)) && Next(s, StartDestroy(t)) == With(s, t, DestroyFlips, s.callCounter)
    ensures t in s.threads ==>
      (Enabled(s, Proceed(t)) <==>
         s.threads[t] != CallRefused && s.threads[t] != CallOverflows && s.threads[t] != Finished)
  {
  }

  /** A call on an object with room enters, undisturbed, in two operations, and is counted. */
  lemma LiveCallEnters(s: State, t: nat)
    requires t in s.threads && s.threads[t] == CallReads && 0 < s.callCounter < LONG_MAX
    ensures Enabled(s, Proceed(t)) && Enabled(Next(s, Proceed(t)), Proceed(t))
    ensures Next(Next(s, Proceed(t)), Proceed(t)) == With(s, t, CallRuns, s.callCounter + 1)
  {
    assert s.threads[t := CallSwaps(s.callCounter)][t := CallRuns] == s.threads[t := CallRuns];
  }

  /** A call is refused exactly when the object was destroyed and no call runs, and overflows
      exactly at the largest count; otherwise it goes on with the count it read. */
  lemma CallIsRefusedIff(s: State, t: nat)
    requires Safe(s) && t in s.threads && s.threads[t] == CallReads
    ensures var s' := Next(s, Proceed(t));
      && (s'.threads[t] == CallRefused <==> s.released && At(s, CallRuns) == {})
      && (s'.threads[t] == CallOverflows <==> s.callCounter == 0x7FFF_FFFF_FFFF_FFFF)
      && (s'.threads[t] == CallSwaps(s.callCounter) <==> 0 < s.callCounter < 0x7FFF_FFFF_FFFF_FFFF)
      && s' == With(s, t, s'.threads[t], s.callCounter)
  {
  }

  /** A count that changed meanwhile makes the call read again. */
  lemma LateSwapReadsAgain(s: State, t: nat)
    requires t in s.threads && s.threads[t].CallSwaps? && s.threads[t].seen != s.callCounter
    ensures Next(s, Proceed(t)) == With(s, t, CallReads, s.callCounter)
  {
  }

  /** The end of a call gives its count back, and frees the object exactly when it was the last. */
  lemma CallEnds(s: State, t: nat)
    requires t in s.threads && s.threads[t] == CallRuns
    ensures Next(s, Proceed(t)) == With(s, t, if s.callCounter == 1 then Cleans else Finished, s.callCounter - 1)
  {
  }

  /** The first destroy gives back the count the object started with; a later one does nothing. */
  lemma DestroyCounts(s: State, t: nat)
    requires t in s.threads && s.threads[t] == DestroyFlips
    ensures s.wasDestroyed ==> Next(s, Proceed(t)) == With(s, t, Finished, s.callCounter)
    ensures !s.wasDestroyed ==>
      var s1 := Next(s, Proceed(t));
      && s1 == With(s, t, DestroyDecrements, s.callCounter).(wasDestroyed := true)
      && Enabled(s1, Proceed(t))
      && Next(s1, Proceed(t)) == With(s, t, if s.callCounter == 1 then Cleans else Finished, s.callCounter - 1).(
                                   wasDestroyed := true, released := true)
  {
    var next := if s.callCounter == 1 then Cleans else Finished;
    assert s.threads[t := DestroyDecrements][t := next] == s.threads[t := next];
  }

  // ---------------------------------------------------------------------------
  // The object, one caller at a time
  // ---------------------------------------------------------------------------

  datatype Entry = Entered | AlreadyDestroyed | WouldOverflow

  class SubportalCore {
    var wasDestroyed: bool
    var callCounter: int
    var cleaned: nat

    constructor ()
      ensures !wasDestroyed && callCounter == 1 && cleaned == 0
    {
      wasDestroyed, callCounter, cleaned := false, 1, 0;
    }

    method CompareAndSet(expected: int, update: int) returns (ok: bool)
      modifies this`callCounter
      ensures ok == (old(callCounter) == expected)
      ensures callCounter == if ok then update else old(callCounter)
    {
      ok := callCounter == expected;
      if ok {
        callCounter := update;
      }
    }

    method DecrementAndGet() returns (now: int)
      modifies this`callCounter
      ensures now == callCounter == old(callCounter) - 1
    {
      callCounter := callCounter - 1;
      now := callCounter;
    }

    /** Sets the flag; true for the one caller that found it unset. */
    method FlipDestroyed() returns (first: bool)
      modifies this`wasDestroyed
      ensures wasDestroyed && first == !old(wasDestroyed)
    {
      first := !wasDestroyed;
      wasDestroyed := true;
    }

    method Clean()
      modifies this`cleaned
      ensures cleaned == old(cleaned) + 1
    {
      cleaned := cleaned + 1;
    }

    method DecrementAndClean()
      modifies this`callCounter, this`cleaned
      ensures callCounter == old(callCounter) - 1
      ensures cleaned == old(cleaned) + if callCounter == 0 then 1 else 0
    {
      var now := DecrementAndGet();
      if now == 0 {
        Clean();
      }
    }

    /** The object is as in state s of the interleaving model. */
    ghost predicate Shows(s: State)
      reads this
    {
      callCounter == s.callCounter && wasDestroyed == s.wasDestroyed && cleaned == s.cleaned
    }

    /** What a thread does from one atomic operation to the next, wherever it stands: the step of
        the interleaving model. */
    method Advance(at: Thread, ghost s: State, ghost t: nat) returns (next: Thread)
      requires Shows(s) && Enabled(s, Proceed(t)) && at == s.threads[t]
      modifies this
      ensures Shows(Next(s, Proceed(t))) && next == Next(s, Proceed(t)).threads[t]
    {
      match at {
        case CallReads =>
          var c := callCounter;
          next := if c == 0 then CallRefused else if c == LONG_MAX then CallOverflows else CallSwaps(c);
        case CallSwaps(c) =>
          var swapped := CompareAndSet(c, c + 1);
          next := if swapped then CallRuns else CallReads;
        case CallRuns =>
          var now := DecrementAndGet();
          next := if now == 0 then Cleans else Finished;
        case DestroyFlips =>
          var first := FlipDestroyed();
          next := if first then DestroyDecrements else Finished;
        case DestroyDecrements =>
          var now := DecrementAndGet();
          next := if now == 0 then Cleans else Finished;
        case Cleans =>
          Clean();
          next := Finished;
      }
    }

    /** The check and increment at the start of a call. */
    method Enter() returns (entry: Entry)
      modifies this`callCounter
      ensures entry == if old(callCounter) == 0 then AlreadyDestroyed
                       else if old(callCounter) == LONG_MAX then WouldOverflow else Entered
      ensures callCounter == old(callCounter) + if entry == Entered then 1 else 0
    {
      var swapped := false;
      while !swapped
        invariant !swapped ==> callCounter == old(callCounter)
        invariant swapped ==> callCounter == old(callCounter) + 1 && old(callCounter) !in {0, LONG_MAX}
        decreases !swapped
      {
        var c := callCounter;
        if c == 0 {
          return AlreadyDestroyed;
        }
        if c == LONG_MAX {
          return WouldOverflow;
        }
        swapped := CompareAndSet(c, c + 1);
      }
      return Entered;
    }

    /** Only the first call has an effect. */
    method Destroy()
      modifies this
      ensures wasDestroyed
      ensures callCounter == old(callCounter) - if old(wasDestroyed) then 0 else 1
      ensures cleaned == old(cleaned) + if !old(wasDestroyed) && callCounter == 0 then 1 else 0
    {
      var first := FlipDestroyed();
      if first {
        DecrementAndClean();
      }
    }
  }
}
