/** The phone's confirmation prompts: each waits on its own one-place queue, found by id, while
    user decisions are submitted from elsewhere. Prompts and submissions interleave at each
    operation on the shared counter, map and queues. */
module ConfirmQueues {
  import opened Desktop
  import opened Wrappers
  import Decimal

  const INT_RANGE := 0x1_0000_0000
  const FIRST_ID := 9000

  /** Two's-complement 32-bit wrap-around. */
  function Wrap(n: int): (r: int)
    ensures -0x8000_0000 <= r < 0x8000_0000
  {
    (n + 0x8000_0000) % INT_RANGE - 0x8000_0000
  }

  function PrintInt(n: int): string {
    if n < 0 then "-" + Decimal.Print(-n) else Decimal.Print(n)
  }

  lemma FirstCharIsDigit(n: nat)
    ensures '0' <= Decimal.Print(n)[0] <= '9'
  {
  }

  lemma PrintIntIsInjective(m: int, n: int)
    requires PrintInt(m) == PrintInt(n)
    ensures m == n
  {
    FirstCharIsDigit(if m < 0 then -m else m);
    FirstCharIsDigit(if n < 0 then -n else n);
    if m < 0 && n < 0 {
      Decimal.PrefixedPrintIsInjective("-", -m, -n);
    } else if m >= 0 && n >= 0 {
      Decimal.PrintIsInjective(m, n);
    }
  }

  /** The notification id of the nth prompt, counting from 0. */
  function AndroidId(number: nat): int {
    Wrap(FIRST_ID + number)
  }

  function PromptId(number: nat): string {
    "confirm-" + PrintInt(AndroidId(number))
  }

  /** Request code of a prompt's action, in wrapping arithmetic. */
  function RequestCode(number: nat, approved: bool): int {
    Wrap(Wrap(AndroidId(number) * 2) + (if approved then 1 else 0))
  }

  lemma WrapIsCongruent(m: int, n: int)
    ensures Wrap(m) == Wrap(n) <==> (m - n) % INT_RANGE == 0
  {
    var a, b := m + 0x8000_0000, n + 0x8000_0000;
    assert a - b == (a / INT_RANGE - b / INT_RANGE) * INT_RANGE + (a % INT_RANGE - b % INT_RANGE);
  }

  /** Prompts share an id exactly when their numbers differ by a multiple of 2^32. */
  lemma PromptIdsCollideIff(m: nat, n: nat)
    ensures PromptId(m) == PromptId(n) <==> (m - n) % 0x1_0000_0000 == 0
  {
    WrapIsCongruent(FIRST_ID + m, FIRST_ID + n);
    if PromptId(m) == PromptId(n) {
      assert PromptId(m)[8..] == PrintInt(AndroidId(m)) && PromptId(n)[8..] == PrintInt(AndroidId(n));
      PrintIntIsInjective(AndroidId(m), AndroidId(n));
    }
  }

  lemma RequestCodeIs(number: nat, approved: bool)
    ensures RequestCode(number, approved) == Wrap(2 * (FIRST_ID + number) + (if approved then 1 else 0))
  {
    var a, bit := FIRST_ID + number, if approved then 1 else 0;
    var p := WrapShifts(a);
    WrapDropsTurns(2 * a, 2 * p);
    var q := WrapShifts(2 * a);
    WrapDropsTurns(2 * a + bit, q);
  }

  lemma WrapShifts(n: int) returns (turns: int)
    ensures Wrap(n) == n + turns * INT_RANGE
  {
    turns := -((n + 0x8000_0000) / INT_RANGE);
  }

  lemma WrapDropsTurns(n: int, turns: int)
    ensures Wrap(n + turns * INT_RANGE) == Wrap(n)
  {
    var m := n + 0x8000_0000;
    assert (m + turns * INT_RANGE) % INT_RANGE == m % INT_RANGE;
  }

  /** Request codes are distinct per prompt and answer until prompt numbers are 2^31 apart. */
  lemma RequestCodesCollideIff(m: nat, n: nat, x: bool, y: bool)
    ensures RequestCode(m, x) == RequestCode(n, y) <==> x == y && (m - n) % 0x8000_0000 == 0
  {
    RequestCodeIs(m, x);
    RequestCodeIs(n, y);
    var d := (if x then 1 else 0) - (if y then 1 else 0);
    WrapIsCongruent(2 * (FIRST_ID + m) + (if x then 1 else 0), 2 * (FIRST_ID + n) + (if y then 1 else 0));
    EvenPart(m - n, d);
  }

  lemma EvenPart(k: int, d: int)
    requires -1 <= d <= 1
    ensures (2 * k + d) % INT_RANGE == 0 <==> d == 0 && k % 0x8000_0000 == 0
  {
    var q := (2 * k + d) / INT_RANGE;
    if (2 * k + d) % INT_RANGE == 0 {
      assert 2 * k + d == q * INT_RANGE;
      assert d == 2 * (q * 0x8000_0000 - k);
      assert k == q * 0x8000_0000;
    }
  }

  // ---------------------------------------------------------------------------
  // The interleaving model
  // ---------------------------------------------------------------------------

  /** A prompt: numbered, registered and polling, done polling (with what it will return, None
      for an exception), removed from the map. */
  datatype Phase =
    | Numbered
    | Polling
    | Returning(result: Option<ConfirmDecision>)
    | Returned(result: Option<ConfirmDecision>)

  /** `arrived` is history: the submissions that offered to this queue before the poll ended. */
  datatype Prompt = Prompt(number: nat, phase: Phase, queue: Option<ConfirmDecision>, arrived: seq<nat>)

  datatype SubmitPhase = LookingUp | Offering(prompt: nat) | Over

  datatype Submission = Submission(id: string, approved: bool, phase: SubmitPhase)

  datatype State = State(
    begun: nat,
    pending: map<string, nat>,
    prompts: map<nat, Prompt>,
    submissions: map<nat, Submission>
  )

  datatype Step =
    | Begin(p: nat)
    | Open(p: nat)
    | ShowFails(p: nat)
    | Take(p: nat)
    | TimeOut(p: nat)
    | Remove(p: nat)
    | Submit(q: nat, id: string, approved: bool)
    | LookUp(q: nat)
    | Offer(q: nat)

  function DecisionFor(approved: bool): ConfirmDecision {
    if approved then Approved else Denied
  }

  predicate PromptIn(s: State, p: nat, phase: Phase) {
    p in s.prompts && s.prompts[p].phase == phase
  }

  predicate Enabled(s: State, step: Step) {
    match step
    case Begin(p) => p !in s.prompts
    case Open(p) => PromptIn(s, p, Numbered)
    case ShowFails(p) => PromptIn(s, p, Polling)
    case Take(p) => PromptIn(s, p, Polling) && s.prompts[p].queue.Some?
    case TimeOut(p) => PromptIn(s, p, Polling) && s.prompts[p].queue.None?
    case Remove(p) => p in s.prompts && s.prompts[p].phase.Returning?
    case Submit(q, _, _) => q !in s.submissions
    case LookUp(q) => q in s.submissions && s.submissions[q].phase == LookingUp
    case Offer(q) =>
      q in s.submissions && s.submissions[q].phase.Offering? && s.submissions[q].phase.prompt in s.prompts
  }

  function WithPrompt(s: State, p: nat, prompt: Prompt): State {
    s.(prompts := s.prompts[p := prompt])
  }

  function Next(s: State, step: Step): State
    requires Enabled(s, step)
  {
    match step
    case Begin(p) => WithPrompt(s, p, Prompt(s.begun, Numbered, None, [])).(begun := s.begun + 1)
    case Open(p) =>
      var prompt := s.prompts[p];
      WithPrompt(s, p, prompt.(phase := Polling)).(pending := s.pending[PromptId(prompt.number) := p])
    case ShowFails(p) => WithPrompt(s, p, s.prompts[p].(phase := Returning(None)))
    case Take(p) => WithPrompt(s, p, s.prompts[p].(phase := Returning(s.prompts[p].queue), queue := None))
    case TimeOut(p) => WithPrompt(s, p, s.prompts[p].(phase := Returning(Some(Undecided))))
    case Remove(p) =>
      var prompt := s.prompts[p];
      var returned := prompt.(phase := Returned(prompt.phase.result));
      WithPrompt(s, p, returned).(pending := s.pending - {PromptId(prompt.number)})
    case Submit(q, id, approved) => s.(submissions := s.submissions[q := Submission(id, approved, LookingUp)])
    case LookUp(q) =>
      var submission := s.submissions[q];
      var phase := if submission.id in s.pending then Offering(s.pending[submission.id]) else Over;
      s.(submissions := s.submissions[q := submission.(phase := phase)])
    case Offer(q) =>
      var submission := s.submissions[q];
      var p := submission.phase.prompt;
      var prompt := s.prompts[p];
      var queue := if prompt.queue.None? then Some(DecisionFor(submission.approved)) else prompt.queue;
      var arrived := if prompt.phase == Polling then prompt.arrived + [q] else prompt.arrived;
      WithPrompt(s, p, prompt.(queue := queue, arrived := arrived)).(
        submissions := s.submissions[q := submission.(phase := Over)])
  }

  ghost predicate Run(states: seq<State>, steps: seq<Step>) {
    && |states| == |steps| + 1
    && states[0] == State(0, map[], map[], map[])
    && forall i :: 0 <= i < |steps| ==> Enabled(states[i], steps[i]) && states[i + 1] == Next(states[i], steps[i])
  }

  // ---------------------------------------------------------------------------
  // Every reachable state
  // ---------------------------------------------------------------------------

  /** The prompt's queue is in the map. */
  predicate Registered(phase: Phase) {
    phase == Polling || phase.Returning?
  }

  /** What the first submission to arrive decided. */
  function FirstArrived(s: State, prompt: Prompt): Option<ConfirmDecision>
    requires forall i :: 0 <= i < |prompt.arrived| ==> prompt.arrived[i] in s.submissions
  {
    if prompt.arrived == [] then None else Some(DecisionFor(s.submissions[prompt.arrived[0]].approved))
  }

  function Outcome(first: Option<ConfirmDecision>): ConfirmDecision {
    match first case Some(d) => d case None => Undecided
  }

  predicate ArrivedFor(s: State, q: nat, number: nat) {
    q in s.submissions && s.submissions[q].id == PromptId(number) && s.submissions[q].phase == Over
  }

  ghost predicate PromptSafe(s: State, p: nat)
    requires p in s.prompts
  {
    var prompt := s.prompts[p];
    && prompt.number < s.begun
    && (forall i :: 0 <= i < |prompt.arrived| ==> ArrivedFor(s, prompt.arrived[i], prompt.number))
    && (prompt.phase == Numbered ==> prompt.arrived == [] && prompt.queue == None)
    && (Registered(prompt.phase) ==> PromptId(prompt.number) in s.pending && s.pending[PromptId(prompt.number)] == p)
    && (prompt.phase == Polling ==> prompt.queue == FirstArrived(s, prompt))
    && (prompt.phase.Returning? || prompt.phase.Returned? ==>
          prompt.phase.result.Some? ==>
            prompt.phase.result == Some(Outcome(FirstArrived(s, prompt))))
  }

  ghost predicate PendingSafe(s: State) {
    forall id :: id in s.pending ==>
      var p := s.pending[id];
      p in s.prompts && PromptId(s.prompts[p].number) == id && Registered(s.prompts[p].phase)
  }

  ghost predicate SubmissionsSafe(s: State) {
    forall q :: q in s.submissions && s.submissions[q].phase.Offering? ==>
      var p := s.submissions[q].phase.prompt;
      p in s.prompts && s.prompts[p].phase != Numbered && PromptId(s.prompts[p].number) == s.submissions[q].id
  }

  ghost predicate DistinctNumbers(s: State) {
    forall p, r :: p in s.prompts && r in s.prompts && p != r ==> s.prompts[p].number != s.prompts[r].number
  }

  ghost predicate Safe(s: State) {
    && (forall p :: p in s.prompts ==> PromptSafe(s, p))
    && DistinctNumbers(s)
    && PendingSafe(s)
    && SubmissionsSafe(s)
  }

  ghost predicate DistinctIds(s: State) {
    forall p, r :: p in s.prompts && r in s.prompts && p != r ==>
      PromptId(s.prompts[p].number) != PromptId(s.prompts[r].number)
  }

  /** Before 2^32 prompts have begun, no two share an id. */
  lemma IdsAreDistinct(s: State)
    requires Safe(s) && s.begun <= INT_RANGE
    ensures DistinctIds(s)
  {
    forall p, r | p in s.prompts && r in s.prompts && p != r
      ensures PromptId(s.prompts[p].number) != PromptId(s.prompts[r].number)
    {
      assert PromptSafe(s, p) && PromptSafe(s, r);
      PromptIdsCollideIff(s.prompts[p].number, s.prompts[r].number);
    }
  }

  lemma ArrivalsStay(s: State, step: Step, prompt: Prompt)
    requires Enabled(s, step)
    requires forall i :: 0 <= i < |prompt.arrived| ==> ArrivedFor(s, prompt.arrived[i], prompt.number)
    ensures var s' := Next(s, step);
      && (forall i :: 0 <= i < |prompt.arrived| ==> ArrivedFor(s', prompt.arrived[i], prompt.number))
      && FirstArrived(s', prompt) == FirstArrived(s, prompt)
  {
    var s' := Next(s, step);
    forall i | 0 <= i < |prompt.arrived|
      ensures prompt.arrived[i] in s'.submissions
      ensures s'.submissions[prompt.arrived[i]] == s.submissions[prompt.arrived[i]]
    {
      assert ArrivedFor(s, prompt.arrived[i], prompt.number);
    }
  }

  /** Prompts never go, keep their numbers, and never become merely numbered again; only Begin
      adds one. */
  lemma PromptsGoOn(s: State, step: Step)
    requires Enabled(s, step)
    ensures var s' := Next(s, step);
      && s.begun <= s'.begun
      && (forall p :: p in s.prompts ==> p in s'.prompts && s'.prompts[p].number == s.prompts[p].number)
      && (forall p :: p in s.prompts && s'.prompts[p].phase == Numbered ==> s.prompts[p].phase == Numbered)
      && (forall p :: p in s'.prompts && p !in s.prompts ==>
            step == Begin(p) && s'.prompts[p].number == s.begun && s'.begun == s.begun + 1)
  {
  }

  /** An id in the map leads to the same prompt until that prompt itself moves on. */
  lemma PendingOfUntouched(s: State, step: Step, p: nat)
    requires DistinctIds(s) && Enabled(s, step) && p in s.prompts && p in Next(s, step).prompts
    requires Next(s, step).prompts[p] == s.prompts[p] && Registered(s.prompts[p].phase)
    requires var id := PromptId(s.prompts[p].number); id in s.pending && s.pending[id] == p
    ensures var id := PromptId(s.prompts[p].number); id in Next(s, step).pending && Next(s, step).pending[id] == p
  {
    if !step.Open? && !step.Remove? {
      OtherStepsKeepPending(s, step);
    }
  }

  lemma UntouchedPromptStaysSafe(s: State, step: Step, p: nat)
    requires Safe(s) && DistinctIds(s) && Enabled(s, step) && p in s.prompts && p in Next(s, step).prompts
    requires Next(s, step).prompts[p] == s.prompts[p]
    ensures PromptSafe(Next(s, step), p)
  {
    assert PromptSafe(s, p);
    PromptsGoOn(s, step);
    ArrivalsStay(s, step, s.prompts[p]);
    if Registered(s.prompts[p].phase) {
      PendingOfUntouched(s, step, p);
    }
  }

  lemma OfferKeepsPromptSafe(s: State, q: nat)
    requires Safe(s) && DistinctIds(s) && Enabled(s, Offer(q))
    ensures PromptSafe(Next(s, Offer(q)), s.submissions[q].phase.prompt)
  {
    var p := s.submissions[q].phase.prompt;
    var prompt := s.prompts[p];
    assert PromptSafe(s, p);
    ArrivalsStay(s, Offer(q), prompt);
    var s' := Next(s, Offer(q));
    assert ArrivedFor(s', q, prompt.number);
    assert prompt.arrived != [] ==> (prompt.arrived + [q])[0] == prompt.arrived[0];
  }

  lemma PromptStaysSafe(s: State, step: Step, p: nat)
    requires Safe(s) && DistinctIds(s) && Enabled(s, step) && p in Next(s, step).prompts
    ensures PromptSafe(Next(s, step), p)
  {
    if p in s.prompts && Next(s, step).prompts[p] == s.prompts[p] {
      UntouchedPromptStaysSafe(s, step, p);
    } else if step.Offer? {
      OfferKeepsPromptSafe(s, step.q);
    } else if p in s.prompts {
      PhaseChangeKeepsPromptSafe(s, step, p);
    }
  }

  lemma PhaseChangeKeepsPromptSafe(s: State, step: Step, p: nat)
    requires Safe(s) && Enabled(s, step) && !step.Offer? && p in s.prompts && p in Next(s, step).prompts
    requires Next(s, step).prompts[p] != s.prompts[p]
    ensures PromptSafe(Next(s, step), p)
  {
    assert PromptSafe(s, p);
    if step.Open? {
      OpenedIsSafe(s, p);
    } else if step.Remove? {
      RemovedIsSafe(s, p);
    } else {
      EndOfWaitIsSafe(s, step, p);
    }
  }

  lemma OpenedIsSafe(s: State, p: nat)
    requires Enabled(s, Open(p)) && PromptSafe(s, p)
    ensures PromptSafe(Next(s, Open(p)), p)
  {
  }

  lemma RemovedIsSafe(s: State, p: nat)
    requires Enabled(s, Remove(p)) && PromptSafe(s, p)
    ensures PromptSafe(Next(s, Remove(p)), p)
  {
  }

  lemma EndOfWaitIsSafe(s: State, step: Step, p: nat)
    requires step == ShowFails(p) || step == Take(p) || step == TimeOut(p)
    requires Enabled(s, step) && PromptSafe(s, p)
    ensures PromptSafe(Next(s, step), p)
  {
  }

  lemma OpenKeepsPendingSafe(s: State, p: nat)
    requires PendingSafe(s) && Enabled(s, Open(p))
    ensures PendingSafe(Next(s, Open(p)))
  {
  }

  lemma RemoveKeepsPendingSafe(s: State, p: nat)
    requires PendingSafe(s) && Enabled(s, Remove(p))
    ensures PendingSafe(Next(s, Remove(p)))
  {
  }

  lemma OtherStepsKeepPending(s: State, step: Step)
    requires Enabled(s, step) && !step.Open? && !step.Remove?
    ensures var s' := Next(s, step);
      && s'.pending == s.pending
      && forall p :: p in s.prompts ==> p in s'.prompts && s'.prompts[p].number == s.prompts[p].number
                                        && (Registered(s.prompts[p].phase) ==> Registered(s'.prompts[p].phase))
  {
  }

  lemma PendingStaysSafe(s: State, step: Step)
    requires PendingSafe(s) && Enabled(s, step)
    ensures PendingSafe(Next(s, step))
  {
    match step {
      case Open(p) => OpenKeepsPendingSafe(s, p);
      case Remove(p) => RemoveKeepsPendingSafe(s, p);
      case _ => OtherStepsKeepPending(s, step);
    }
  }

  lemma SubmissionsStaySafe(s: State, step: Step)
    requires Safe(s) && Enabled(s, step)
    ensures SubmissionsSafe(Next(s, step))
  {
    PromptsGoOn(s, step);
    OffersComeFrom(s, step);
  }

  /** A submission on its way to a queue was so before, or has just found its id in the map. */
  lemma OffersComeFrom(s: State, step: Step)
    requires Enabled(s, step)
    ensures var s' := Next(s, step);
      forall q :: q in s'.submissions && s'.submissions[q].phase.Offering? ==>
        && q in s.submissions && s.submissions[q].id == s'.submissions[q].id
        && (s.submissions[q].phase == s'.submissions[q].phase
            || (s'.submissions[q].id in s.pending && s'.submissions[q].phase.prompt == s.pending[s'.submissions[q].id]))
  {
  }

  lemma NumbersStayDistinct(s: State, step: Step)
    requires Safe(s) && Enabled(s, step)
    ensures DistinctNumbers(Next(s, step))
  {
    assert forall p :: p in s.prompts ==> PromptSafe(s, p);
    PromptsGoOn(s, step);
  }

  lemma SafeStep(s: State, step: Step)
    requires Safe(s) && Enabled(s, step) && s.begun <= INT_RANGE
    ensures Safe(Next(s, step))
  {
    IdsAreDistinct(s);
    forall p | p in Next(s, step).prompts
      ensures PromptSafe(Next(s, step), p)
    {
      PromptStaysSafe(s, step, p);
    }
    NumbersStayDistinct(s, step);
    PendingStaysSafe(s, step);
    SubmissionsStaySafe(s, step);
  }

  lemma {:induction false} AlwaysSafe(states: seq<State>, steps: seq<Step>, i: nat)
    requires Run(states, steps) && i < |states| && states[i].begun <= INT_RANGE
    ensures Safe(states[i])
  {
    if i > 0 {
      assert Enabled(states[i - 1], steps[i - 1]);
      AlwaysSafe(states, steps, i - 1);
      SafeStep(states[i - 1], steps[i - 1]);
    }
  }

  /** In-flight prompts have distinct ids, and a prompt that returned gave the decision of the
      first submission for its own id that reached its queue before the poll ended, or no
      decision when there was none. */
  lemma PromptsReturnFirstSubmission(states: seq<State>, steps: seq<Step>, i: nat)
    requires Run(states, steps) && i < |states| && states[i].begun <= INT_RANGE
    ensures var s := states[i];
      && DistinctIds(s)
      && (forall p :: p in s.prompts && s.prompts[p].phase.Returned? && s.prompts[p].phase.result.Some? ==>
            var prompt := s.prompts[p];
            if prompt.arrived == [] then prompt.phase.result.value == Undecided
            else
              && prompt.arrived[0] in s.submissions
              && s.submissions[prompt.arrived[0]].id == PromptId(prompt.number)
              && prompt.phase.result.value == DecisionFor(s.submissions[prompt.arrived[0]].approved))
  {
    AlwaysSafe(states, steps, i);
    IdsAreDistinct(states[i]);
    assert forall p :: p in states[i].prompts ==> PromptSafe(states[i], p);
  }

  /** An offer concerns no prompt but the one whose id was submitted, and not even that one
      once a submission has arrived or its poll has ended. */
  lemma LateAndForeignOffersAreIdle(s: State, q: nat, p: nat)
    requires Safe(s) && Enabled(s, Offer(q)) && s.begun <= INT_RANGE && p in s.prompts
    ensures var s' := Next(s, Offer(q));
      && p in s'.prompts
      && s'.prompts[p].phase == s.prompts[p].phase
      && (PromptId(s.prompts[p].number) != s.submissions[q].id ==> s'.prompts[p] == s.prompts[p])
      && (s.prompts[p].phase == Polling && s.prompts[p].arrived != [] ==> s'.prompts[p].queue == s.prompts[p].queue)
      && (s.prompts[p].phase != Polling ==> s'.prompts[p].arrived == s.prompts[p].arrived)
  {
    assert PromptSafe(s, p);
  }

  // ---------------------------------------------------------------------------
  // What a tap does
  // ---------------------------------------------------------------------------

  /** What a prompt and a submission can do where they stand. */
  lemma WhatCanHappen(s: State, p: nat, q: nat, id: string, approved: bool)
    ensures Enabled(s, Begin(p)) <==> p !in s.prompts
    ensures Enabled(s, Open(p)) <==> PromptIn(s, p, Numbered)
    ensures Enabled(s, ShowFails(p)) <==> PromptIn(s, p, Polling)
    ensures Enabled(s, Take(p)) <==> PromptIn(s, p, Polling) && s.prompts[p].queue.Some?
    ensures Enabled(s, TimeOut(p)) <==> PromptIn(s, p, Polling) && s.prompts[p].queue.None?
    ensures Enabled(s, Remove(p)) <==> p in s.prompts && s.prompts[p].phase.Returning?
    ensures Enabled(s, Submit(q, id, approved)) <==> q !in s.submissions
    ensures Enabled(s, LookUp(q)) <==> q in s.submissions && s.submissions[q].phase == LookingUp
    ensures Enabled(s, Offer(q))
       <==> q in s.submissions && s.submissions[q].phase.Offering? && s.submissions[q].phase.prompt in s.prompts
  {
  }

  /** A prompt takes the next number, then registers under its id and polls; a tap is submitted. */
  lemma PromptStarts(s: State, p: nat, q: nat, id: string, approved: bool)
    ensures Enabled(s, Begin(p)) ==>
      Next(s, Begin(p)) == s.(begun := s.begun + 1, prompts := s.prompts[p := Prompt(s.begun, Numbered, None, [])])
    ensures Enabled(s, Open(p)) ==>
      Next(s, Open(p)) == s.(prompts := s.prompts[p := s.prompts[p].(phase := Polling)],
                             pending := s.pending[PromptId(s.prompts[p].number) := p])
    ensures Enabled(s, Submit(q, id, approved)) ==>
      Next(s, Submit(q, id, approved))
      == s.(submissions := s.submissions[q := Submission(id, approved, LookingUp)])
  {
  }

  /** Ids are "confirm-" and a number from 9000 on. */
  lemma PromptIdForm(number: nat)
    requires number < 0x8000_0000 - 9000
    ensures var id := PromptId(number);
      |id| > 8 && id[..8] == "confirm-" && Decimal.Value(id[8..]) == 9000 + number
  {
    Decimal.ValueOfPrint(9000 + number);
    assert AndroidId(number) == 9000 + number;
    assert PromptId(number) == "confirm-" + Decimal.Print(9000 + number);
    assert |"confirm-"| == 8;
  }

  /** A submission finds the prompt that its id stands for, if any does. */
  lemma LookUpFinds(s: State, q: nat)
    requires Enabled(s, LookUp(q))
    ensures var s' := Next(s, LookUp(q)); var submission := s.submissions[q];
      && s'.prompts == s.prompts && s'.pending == s.pending
      && s'.submissions == s.submissions[q := Submission(submission.id, submission.approved,
           if submission.id in s.pending then Offering(s.pending[submission.id]) else Over)]
  {
  }

  /** An offer to a polling prompt arrives, and is what the prompt's queue holds if it was empty. */
  lemma OfferArrives(s: State, q: nat)
    requires Enabled(s, Offer(q))
    ensures var s', p := Next(s, Offer(q)), s.submissions[q].phase.prompt;
      var before, after := s.prompts[p], s'.prompts[p];
      && (before.phase == Polling ==> after.arrived == before.arrived + [q])
      && (before.phase != Polling ==> after.arrived == before.arrived)
      && after.queue == (if before.queue.Some? then before.queue
                         else if s.submissions[q].approved then Some(Approved) else Some(Denied))
      && after.phase == before.phase && after.number == before.number
      && s'.prompts == s.prompts[p := after] && s'.pending == s.pending
      && s'.submissions == s.submissions[q := s.submissions[q].(phase := Over)]
  {
  }

  /** The end of a wait returns what the queue holds, or no decision when time is up, or an exception
      when the prompt could not be shown; the id is then forgotten. */
  lemma WaitEnds(s: State, p: nat)
    ensures Enabled(s, Take(p)) ==>
      Next(s, Take(p)).prompts == s.prompts[p := s.prompts[p].(phase := Returning(s.prompts[p].queue), queue := None)]
    ensures Enabled(s, TimeOut(p)) ==> s.prompts[p].queue == None
    ensures Enabled(s, TimeOut(p)) ==>
      Next(s, TimeOut(p)).prompts == s.prompts[p := s.prompts[p].(phase := Returning(Some(Undecided)))]
    ensures Enabled(s, ShowFails(p)) ==>
      Next(s, ShowFails(p)).prompts == s.prompts[p := s.prompts[p].(phase := Returning(None))]
    ensures Enabled(s, Remove(p)) ==>
      var s' := Next(s, Remove(p));
      && s'.prompts == s.prompts[p := s.prompts[p].(phase := Returned(s.prompts[p].phase.result))]
      && s'.pending.Keys == s.pending.Keys - {PromptId(s.prompts[p].number)}
  {
  }

  /** q was the first submission to arrive at p, with this answer. */
  predicate FirstTap(s: State, p: nat, q: nat, approved: bool) {
    && p in s.prompts && s.prompts[p].arrived != [] && s.prompts[p].arrived[0] == q
    && q in s.submissions && s.submissions[q].approved == approved
  }

  lemma FirstTapStays(s: State, step: Step, p: nat, q: nat, approved: bool)
    requires Enabled(s, step) && FirstTap(s, p, q, approved)
    ensures FirstTap(Next(s, step), p, q, approved)
  {
  }

  lemma {:induction false} FirstTapLasts(states: seq<State>, steps: seq<Step>, i: nat, j: nat, p: nat, q: nat,
                                         approved: bool)
    requires Run(states, steps) && i <= j < |states| && FirstTap(states[i], p, q, approved)
    ensures FirstTap(states[j], p, q, approved)
  {
    if i < j {
      FirstTapLasts(states, steps, i, j - 1, p, q, approved);
      var s, step := states[j - 1], steps[j - 1];
      assert Enabled(s, step) && states[j] == Next(s, step);
      FirstTapStays(s, step, p, q, approved);
    }
  }

  /** The first tap decides: if a submission is offered while its prompt polls and nothing has arrived
      there, the prompt, once returned without an exception, has returned that submission's answer. */
  lemma FirstTapDecides(states: seq<State>, steps: seq<Step>, i: nat, j: nat, q: nat)
    requires Run(states, steps) && i < j < |states| && states[j].begun <= INT_RANGE
    requires steps[i] == Offer(q) && Enabled(states[i], Offer(q))
    requires var p := states[i].submissions[q].phase.prompt;
      && PromptIn(states[i], p, Polling) && states[i].prompts[p].arrived == []
      && p in states[j].prompts && states[j].prompts[p].phase.Returned? && states[j].prompts[p].phase.result.Some?
    ensures states[j].prompts[states[i].submissions[q].phase.prompt].phase.result.value
         == if states[i].submissions[q].approved then Approved else Denied
  {
    var s, step := states[i], steps[i];
    assert Enabled(s, step) && states[i + 1] == Next(s, step);
    var p, approved := s.submissions[q].phase.prompt, s.submissions[q].approved;
    OfferArrives(s, q);
    FirstTapLasts(states, steps, i + 1, j, p, q, approved);
    PromptsReturnFirstSubmission(states, steps, j);
  }

  /** A prompt returns an exception exactly when showing it failed. */
  lemma {:induction false} ExceptionMeansNotShown(states: seq<State>, steps: seq<Step>, i: nat, p: nat)
    requires Run(states, steps) && i < |states| && p in states[i].prompts
    ensures Excepted(states[i].prompts[p].phase) <==> exists j :: 0 <= j < i && steps[j] == ShowFails(p)
  {
    if i > 0 {
      var s, step := states[i - 1], steps[i - 1];
      assert Enabled(s, step) && states[i] == Next(s, step);
      ExceptionStep(s, step, p);
      if p in s.prompts {
        ExceptionMeansNotShown(states, steps, i - 1, p);
      } else {
        NeverFailed(states, steps, i - 1, p);
      }
    }
  }

  predicate Excepted(phase: Phase) {
    (phase.Returning? || phase.Returned?) && phase.result == None
  }

  lemma ExceptionStep(s: State, step: Step, p: nat)
    requires Enabled(s, step) && p in Next(s, step).prompts
    ensures Excepted(Next(s, step).prompts[p].phase)
       <==> step == ShowFails(p) || (p in s.prompts && Excepted(s.prompts[p].phase))
  {
  }

  lemma {:induction false} NeverFailed(states: seq<State>, steps: seq<Step>, i: nat, p: nat)
    requires Run(states, steps) && i < |states| && p !in states[i].prompts
    ensures forall j :: 0 <= j < i ==> steps[j] != ShowFails(p)
  {
    if i > 0 {
      var s, step := states[i - 1], steps[i - 1];
      assert Enabled(s, step) && states[i] == Next(s, step);
      PromptsGoOn(s, step);
      NeverFailed(states, steps, i - 1, p);
    }
  }

  // ---------------------------------------------------------------------------
  // The manager as an object
  // ---------------------------------------------------------------------------

  /** A one-place queue. */
  class Queue {
    var slot: Option<ConfirmDecision>

    constructor ()
      ensures slot == None
    {
      slot := None;
    }

    method Offer(d: ConfirmDecision) returns (ok: bool)
      modifies this
      ensures ok == old(slot).None?
      ensures slot == if ok then Some(d) else old(slot)
    {
      ok := slot.None?;
      if ok {
        slot := Some(d);
      }
    }

    method Poll() returns (d: Option<ConfirmDecision>)
      modifies this
      ensures d == old(slot) && slot == None
    {
      d := slot;
      slot := None;
    }
  }

  class Manager {
    var begun: nat
    var nextAndroidId: int
    var pending: map<string, Queue>

    constructor ()
      ensures Valid() && begun == 0 && pending == map[]
    {
      begun, nextAndroidId, pending := 0, FIRST_ID, map[];
    }

    ghost predicate Valid()
      reads this
    {
      nextAndroidId == AndroidId(begun)
    }

    method TakeNumber() returns (id: string)
      requires Valid()
      modifies this`begun, this`nextAndroidId
      ensures Valid() && begun == old(begun) + 1
      ensures id == PromptId(old(begun))
    {
      var androidId := nextAndroidId;
      nextAndroidId := Wrap(nextAndroidId + 1);
      WrapNext(FIRST_ID + begun);
      begun := begun + 1;
      id := "confirm-" + PrintInt(androidId);
    }

    method OpenQueue(id: string) returns (queue: Queue)
      modifies this`pending
      ensures fresh(queue) && queue.slot == None
      ensures pending == old(pending)[id := queue]
    {
      queue := new Queue();
      pending := pending[id := queue];
    }

    method CloseQueue(id: string)
      modifies this`pending
      ensures pending == old(pending) - {id}
    {
      pending := pending - {id};
    }

    method FindQueue(id: string) returns (queue: Option<Queue>)
      ensures queue == if id in pending then Some(pending[id]) else None
    {
      queue := if id in pending then Some(pending[id]) else None;
    }

    /** Takes a number and registers a fresh queue under its id. */
    method BeginPrompt() returns (id: string, queue: Queue)
      requires Valid()
      modifies this
      ensures Valid() && begun == old(begun) + 1
      ensures id == PromptId(old(begun))
      ensures fresh(queue) && queue.slot == None
      ensures pending == old(pending)[id := queue]
    {
      id := TakeNumber();
      queue := OpenQueue(id);
    }

    /** Ends the wait: what is in the queue, or no decision; the id is forgotten. */
    method EndPrompt(id: string, queue: Queue) returns (decision: ConfirmDecision)
      requires Valid()
      modifies this, queue
      ensures Valid() && begun == old(begun)
      ensures decision == match old(queue.slot) { case Some(d) => d case None => Undecided }
      ensures pending == old(pending) - {id}
    {
      var d := queue.Poll();
      decision := match d case Some(answer) => answer case None => Undecided;
      CloseQueue(id);
    }

    /** A submission for an unknown id is dropped; for a known one the first offer stays. */
    method Submit(id: string, approved: bool)
      modifies set k | k in pending :: pending[k]
      ensures id in pending ==>
        pending[id].slot == match old(pending[id].slot) {
          case Some(d) => Some(d)
          case None => Some(DecisionFor(approved))
        }
      ensures forall k :: k in pending && (id !in pending || pending[k] != pending[id]) ==>
        pending[k].slot == old(pending[k].slot)
    {
      var queue := FindQueue(id);
      if queue.Some? {
        var _ := queue.value.Offer(DecisionFor(approved));
      }
    }
  }

  lemma WrapNext(n: int)
    ensures Wrap(Wrap(n) + 1) == Wrap(n + 1)
  {
    assert (Wrap(n) - n) % INT_RANGE == 0;
    WrapIsCongruent(Wrap(n) + 1, n + 1);
  }
}
