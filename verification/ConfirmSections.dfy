/** What prompts and submissions do between two interleaving points, as code over the `Manager`
    object: each leaves the object and its queues as the corresponding step of the interleaving
    model does. */
module ConfirmSections {
  import opened ConfirmQueues
  import opened Desktop
  import opened Wrappers

  /** The object is as in state s. `queues` gives each prompt's queue once it has one. */
  ghost predicate Shows(m: Manager, s: State, queues: map<nat, Queue>)
    reads m, queues.Values
  {
    && m.Valid() && m.begun == s.begun
    && m.pending.Keys == s.pending.Keys
    && (forall id :: id in m.pending ==> s.pending[id] in queues && m.pending[id] == queues[s.pending[id]])
    && QueuesShow(s, queues)
  }

  ghost predicate QueuesShow(s: State, queues: map<nat, Queue>)
    reads queues.Values
  {
    && (forall p :: p in queues <==> p in s.prompts && s.prompts[p].phase != Numbered)
    && (forall p :: p in queues ==> queues[p].slot == s.prompts[p].queue)
    && (forall p, r :: p in queues && r in queues && p != r ==> queues[p] != queues[r])
  }

  method BeginSection(m: Manager, ghost s: State, ghost p: nat, ghost queues: map<nat, Queue>) returns (id: string)
    requires Shows(m, s, queues) && Enabled(s, Begin(p))
    modifies m
    ensures Shows(m, Next(s, Begin(p)), queues)
    ensures id == PromptId(Next(s, Begin(p)).prompts[p].number)
  {
    id := m.TakeNumber();
  }

  method OpenSection(m: Manager, id: string, ghost s: State, ghost p: nat, ghost queues: map<nat, Queue>)
    returns (queue: Queue)
    requires Shows(m, s, queues) && Enabled(s, Open(p)) && id == PromptId(s.prompts[p].number)
    requires s.prompts[p].queue == None
    modifies m
    ensures fresh(queue) && Shows(m, Next(s, Open(p)), queues[p := queue])
  {
    queue := m.OpenQueue(id);
  }

  /** The end of the wait: an answer that is there is taken, otherwise time is up. */
  method PollSection(m: Manager, queue: Queue, ghost s: State, ghost p: nat, ghost queues: map<nat, Queue>)
    returns (decision: ConfirmDecision)
    requires Shows(m, s, queues) && PromptIn(s, p, Polling) && queue == queues[p]
    modifies queue
    ensures var step := if s.prompts[p].queue.Some? then Take(p) else TimeOut(p);
      && Enabled(s, step) && Shows(m, Next(s, step), queues)
      && Next(s, step).prompts[p].phase == Returning(Some(decision))
  {
    var d := queue.Poll();
    decision := match d case Some(answer) => answer case None => Undecided;
  }

  method RemoveSection(m: Manager, id: string, ghost s: State, ghost p: nat, ghost queues: map<nat, Queue>)
    requires Shows(m, s, queues) && Enabled(s, Remove(p)) && id == PromptId(s.prompts[p].number)
    modifies m
    ensures Shows(m, Next(s, Remove(p)), queues)
  {
    m.CloseQueue(id);
  }

  method LookUpSection(m: Manager, id: string, ghost s: State, ghost q: nat, ghost queues: map<nat, Queue>)
    returns (queue: Option<Queue>)
    requires Shows(m, s, queues) && Enabled(s, LookUp(q)) && id == s.submissions[q].id
    ensures Shows(m, Next(s, LookUp(q)), queues)
    ensures match Next(s, LookUp(q)).submissions[q].phase
            case Offering(p) => p in queues && queue == Some(queues[p])
            case _ => queue == None
  {
    queue := m.FindQueue(id);
  }

  method OfferSection(m: Manager, queue: Queue, approved: bool, ghost s: State, ghost q: nat,
                      ghost queues: map<nat, Queue>)
    requires Shows(m, s, queues) && Enabled(s, Offer(q)) && approved == s.submissions[q].approved
    requires s.submissions[q].phase.prompt in queues && queue == queues[s.submissions[q].phase.prompt]
    modifies queue
    ensures Shows(m, Next(s, Offer(q)), queues)
  {
    var _ := queue.Offer(DecisionFor(approved));
  }
}
