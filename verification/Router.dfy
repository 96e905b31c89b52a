/** Routing decisions: which clients, in what order, and how their answers are combined. */
module Router {
  import opened Ordering
  import opened Protocol
  import opened Wrappers
  import Bytes
  import Requests

  datatype FocusState = Active | Idle

  /** Time is a number of clock ticks. */
  datatype ClientInfo = ClientInfo(
    endpointId: string,
    focus: FocusState,
    capabilities: seq<string>,
    platform: string,
    lastActive: int
  )

  datatype Strategy = Failover(capability: string) | Race(capability: string) | FanOut(capability: string) | Direct

  function StrategyFor(request: Request): Strategy {
    match request
    case OpenURI(_) => Failover("OpenURI")
    case OpenFile(_, _, _) => Failover("OpenFile")
    case Confirm(_, _) => Race("Confirm")
    case Notify(_, _, _, _) => FanOut("Notify")
    case _ => Direct
  }

  /** Opening goes to one device, a confirmation to all at once, a notification to all, everything
      else to none; each needs the capability its method is named after. */
  lemma StrategyIsOwn(request: Request)
    ensures var strategy := StrategyFor(request);
      && (strategy.Failover? <==> request.OpenURI? || request.OpenFile?)
      && (strategy.Race? <==> request.Confirm?)
      && (strategy.FanOut? <==> request.Notify?)
      && (!strategy.Direct? ==> Requests.MethodOf(request) == "io.subportal." + strategy.capability)
  {
  }

  // ---------------------------------------------------------------------------
  // Ranking
  // ---------------------------------------------------------------------------

  function FocusRank(focus: FocusState): int {
    match focus case Active => 0 case Idle => 1
  }

  /** The comparator says "less": active first, then most recent, then endpoint id. */
  predicate Before(a: ClientInfo, b: ClientInfo) {
    || FocusRank(a.focus) < FocusRank(b.focus)
    || (FocusRank(a.focus) == FocusRank(b.focus)
        && (b.lastActive < a.lastActive
            || (a.lastActive == b.lastActive && StrLess(a.endpointId, b.endpointId))))
  }

  lemma BeforeTotal(a: ClientInfo, b: ClientInfo)
    ensures Before(a, b) || Before(b, a) || a.endpointId == b.endpointId
  {
    StrLessTotal(a.endpointId, b.endpointId);
  }

  lemma BeforeAsymmetric(a: ClientInfo, b: ClientInfo)
    requires Before(a, b)
    ensures !Before(b, a)
  {
    if StrLess(a.endpointId, b.endpointId) {
      StrLessAsymmetric(a.endpointId, b.endpointId);
    }
  }

  lemma BeforeTransitive(a: ClientInfo, b: ClientInfo, c: ClientInfo)
    requires Before(a, b) && Before(b, c)
    ensures Before(a, c)
  {
    if StrLess(a.endpointId, b.endpointId) && StrLess(b.endpointId, c.endpointId) {
      StrLessTransitive(a.endpointId, b.endpointId, c.endpointId);
    }
  }

  /** The clients with a capability, in the order given. */
  function Capable(clients: seq<ClientInfo>, capability: string): seq<ClientInfo> {
    if clients == [] then []
    else (if capability in clients[0].capabilities then [clients[0]] else []) + Capable(clients[1..], capability)
  }

  ghost predicate Sorted(r: seq<ClientInfo>) {
    forall i, j :: 0 <= i < j < |r| ==> !Before(r[j], r[i])
  }

  ghost predicate StrictlySorted(r: seq<ClientInfo>) {
    forall i, j :: 0 <= i < j < |r| ==> Before(r[i], r[j])
  }

  ghost predicate DistinctIds(clients: seq<ClientInfo>) {
    forall i, j :: 0 <= i < j < |clients| ==> clients[i].endpointId != clients[j].endpointId
  }

  lemma {:induction false} CapableAppend(a: seq<ClientInfo>, b: seq<ClientInfo>, capability: string)
    ensures Capable(a + b, capability) == Capable(a, capability) + Capable(b, capability)
  {
    if a == [] {
      assert a + b == b;
    } else {
      var head := if capability in a[0].capabilities then [a[0]] else [];
      assert (a + b)[1..] == a[1..] + b;
      CapableAppend(a[1..], b, capability);
      Bytes.ConcatAssociative(head, Capable(a[1..], capability), Capable(b, capability));
    }
  }

  /** The library sort the ranking calls: a stable insertion sort by the comparator. */
  method SortByComparator(clients: seq<ClientInfo>) returns (r: seq<ClientInfo>)
    ensures Sorted(r)
    ensures multiset(r) == multiset(clients)
  {
    r := [];
    for i := 0 to |clients|
      invariant Sorted(r)
      invariant multiset(r) == multiset(clients[..i])
    {
      var at := |r|;
      while at > 0 && Before(clients[i], r[at - 1])
        invariant 0 <= at <= |r|
        invariant forall k :: at <= k < |r| ==> Before(clients[i], r[k])
      {
        at := at - 1;
      }
      ghost var before := r;
      r := r[..at] + [clients[i]] + r[at..];
      InsertKeepsSorted(before, clients[i], at);
      assert before == before[..at] + before[at..];
      assert clients[..i + 1] == clients[..i] + [clients[i]];
    }
    assert clients[..|clients|] == clients;
  }

  lemma InsertKeepsSorted(r: seq<ClientInfo>, x: ClientInfo, at: nat)
    requires Sorted(r) && at <= |r|
    requires forall k :: at <= k < |r| ==> Before(x, r[k])
    requires at == 0 || !Before(x, r[at - 1])
    ensures Sorted(r[..at] + [x] + r[at..])
  {
    var s := r[..at] + [x] + r[at..];
    forall i, j | 0 <= i < j < |s|
      ensures !Before(s[j], s[i])
    {
      if j == at {
        if i < at - 1 && Before(x, r[i]) {
          BeforeOrNot(x, r[i], r[at - 1]);
        }
      } else if i == at {
        BeforeAsymmetric(x, r[j - 1]);
      }
    }
  }

  /** If x is before an earlier element, it is before every later one. */
  lemma BeforeOrNot(x: ClientInfo, a: ClientInfo, b: ClientInfo)
    requires Before(x, a) && !Before(b, a)
    ensures Before(x, b)
  {
    BeforeTotal(a, b);
    if Before(a, b) {
      BeforeTransitive(x, a, b);
    }
  }

  /** Exactly the capable clients, best first. */
  method Rank(clients: seq<ClientInfo>, capability: string) returns (r: seq<ClientInfo>)
    ensures multiset(r) == multiset(Capable(clients, capability))
    ensures Sorted(r)
    ensures DistinctIds(clients) ==> IsRanking(clients, capability, r)
  {
    var candidates := [];
    for i := 0 to |clients|
      invariant candidates == Capable(clients[..i], capability)
    {
      if capability in clients[i].capabilities {
        candidates := candidates + [clients[i]];
      }
      CapableAppend(clients[..i], [clients[i]], capability);
      assert clients[..i + 1] == clients[..i] + [clients[i]];
    }
    assert clients[..|clients|] == clients;
    r := SortByComparator(candidates);
    if DistinctIds(clients) {
      CapableMembers(clients, capability);
      RankedIsRanking(clients, capability, r);
    }
  }

  /** The meaning of a ranking: the capable clients and no others, each once, strictly ordered. */
  ghost predicate IsRanking(clients: seq<ClientInfo>, capability: string, r: seq<ClientInfo>) {
    && StrictlySorted(r)
    && forall c :: c in r <==> c in clients && capability in c.capabilities
  }

  lemma CapableMembers(clients: seq<ClientInfo>, capability: string)
    ensures forall c :: c in Capable(clients, capability) <==> c in clients && capability in c.capabilities
    ensures DistinctIds(clients) ==> DistinctIds(Capable(clients, capability))
  {
    if clients != [] {
      CapableMembers(clients[1..], capability);
    }
  }

  lemma RankedIsRanking(clients: seq<ClientInfo>, capability: string, r: seq<ClientInfo>)
    requires DistinctIds(clients) && Sorted(r)
    requires multiset(r) == multiset(Capable(clients, capability))
    ensures IsRanking(clients, capability, r)
  {
    var c := Capable(clients, capability);
    CapableMembers(clients, capability);
    SameMembers(r, c);
    forall i, j | 0 <= i < j < |r|
      ensures Before(r[i], r[j])
    {
      OncePerElement(c, r[i]);
      TwicePerPair(r, i, j);
      assert r[i] in c && r[j] in c;
      BeforeTotal(r[i], r[j]);
    }
  }

  lemma SameMembers<T>(r: seq<T>, s: seq<T>)
    requires multiset(r) == multiset(s)
    ensures forall x :: x in r <==> x in s
  {
    assert forall x :: x in r <==> x in multiset(r);
    assert forall x :: x in s <==> x in multiset(s);
  }

  lemma TwicePerPair<T>(r: seq<T>, i: nat, j: nat)
    requires i < j < |r|
    ensures r[i] == r[j] ==> multiset(r)[r[i]] >= 2
  {
    assert r == r[..j] + r[j..];
    assert r[i] in multiset(r[..j]) && r[j] in multiset(r[j..]);
  }

  lemma OncePerElement(c: seq<ClientInfo>, x: ClientInfo)
    requires DistinctIds(c)
    ensures multiset(c)[x] <= 1
  {
    if c != [] {
      OncePerElement(c[1..], x);
      assert c == [c[0]] + c[1..];
      assert x == c[0] ==> x !in c[1..];
    }
  }

  lemma {:induction false} StrictlySortedUnique(r: seq<ClientInfo>, s: seq<ClientInfo>)
    requires StrictlySorted(r) && StrictlySorted(s)
    requires forall c :: c in r <==> c in s
    ensures r == s
  {
    assert |r| > 0 ==> r[0] in r;
    assert |s| > 0 ==> s[0] in s;
    if r != [] && s != [] {
      HeadsAgree(r, s);
      TailMembers(r);
      TailMembers(s);
      StrictlySortedUnique(r[1..], s[1..]);
      assert r == [r[0]] + r[1..] && s == [s[0]] + s[1..];
    }
  }

  lemma HeadsAgree(r: seq<ClientInfo>, s: seq<ClientInfo>)
    requires StrictlySorted(r) && StrictlySorted(s) && r != [] && s != []
    requires forall c :: c in r <==> c in s
    ensures r[0] == s[0]
  {
    assert r[0] in s && s[0] in r;
    var i :| 0 <= i < |s| && s[i] == r[0];
    var j :| 0 <= j < |r| && r[j] == s[0];
    if i > 0 && j > 0 {
      BeforeAsymmetric(s[0], r[0]);
    }
  }

  lemma TailMembers(r: seq<ClientInfo>)
    requires StrictlySorted(r) && r != []
    ensures forall c :: c in r[1..] <==> c in r && c != r[0]
  {
    if i :| 1 <= i < |r| && r[i] == r[0] {
      BeforeAsymmetric(r[0], r[i]);
    }
  }

  /** Two rankings of listings with the same members are the same list. */
  lemma RankingIsCanonical(clients: seq<ClientInfo>, others: seq<ClientInfo>, capability: string,
                           r: seq<ClientInfo>, s: seq<ClientInfo>)
    requires forall c :: c in clients <==> c in others
    requires IsRanking(clients, capability, r) && IsRanking(others, capability, s)
    ensures r == s
  {
    StrictlySortedUnique(r, s);
  }

  /** What the order of a ranking is: active clients before idle ones, of equal focus the one used
      later first, of those used at the same time the smaller id first. */
  lemma RankingOrder(clients: seq<ClientInfo>, capability: string, r: seq<ClientInfo>, i: nat, j: nat)
    requires IsRanking(clients, capability, r) && i < j < |r|
    ensures r[i].focus == Idle ==> r[j].focus == Idle
    ensures r[i].focus == r[j].focus ==> r[j].lastActive <= r[i].lastActive
    ensures r[i].focus == r[j].focus && r[i].lastActive == r[j].lastActive ==> StrLess(r[i].endpointId, r[j].endpointId)
  {
    assert Before(r[i], r[j]);
  }

  /** A capable client that comes before every other one is the head of the ranking. */
  lemma BestIsHead(clients: seq<ClientInfo>, capability: string, r: seq<ClientInfo>, best: ClientInfo)
    requires IsRanking(clients, capability, r)
    requires best in clients && capability in best.capabilities
    requires forall c :: c in clients && c != best ==> Before(best, c)
    ensures r != [] && r[0] == best
  {
    assert best in r;
    var i :| 0 <= i < |r| && r[i] == best;
    if i > 0 {
      assert r[0] in r;
      assert Before(r[0], r[i]);
      BeforeAsymmetric(r[0], best);
    }
  }

  // ---------------------------------------------------------------------------
  // Fan-out targets
  // ---------------------------------------------------------------------------

  method FanOutTargets(clients: seq<ClientInfo>, capability: string) returns (r: seq<ClientInfo>)
    ensures r == Capable(clients, capability)
  {
    r := [];
    for i := 0 to |clients|
      invariant r == Capable(clients[..i], capability)
    {
      if capability in clients[i].capabilities {
        r := r + [clients[i]];
      }
      CapableAppend(clients[..i], [clients[i]], capability);
      assert clients[..i + 1] == clients[..i] + [clients[i]];
    }
    assert clients[..|clients|] == clients;
  }

  // ---------------------------------------------------------------------------
  // Failover
  // ---------------------------------------------------------------------------

  /** Target k is reachable, and no target before it is. */
  ghost predicate FirstReachable<T>(targets: seq<(string, T)>, answer: T -> Reply, k: int) {
    && 0 <= k < |targets|
    && answer(targets[k].1) != Err(NoClient)
    && forall i :: 0 <= i < k ==> answer(targets[i].1) == Err(NoClient)
  }

  /** Tries the targets in order. `answer` gives each target's reply when it is contacted. */
  method FailoverDecision<T>(targets: seq<(string, T)>, answer: T -> Reply) returns (r: Reply, ghost contacted: nat)
    ensures forall k :: FirstReachable(targets, answer, k) ==> r == answer(targets[k].1) && contacted == k + 1
    ensures r == Err(NoClient) <==> forall i :: 0 <= i < |targets| ==> answer(targets[i].1) == Err(NoClient)
    ensures contacted <= |targets|
    ensures forall i :: 0 <= i < contacted - 1 ==> answer(targets[i].1) == Err(NoClient)
    ensures r != Err(NoClient) ==> contacted > 0 && r == answer(targets[contacted - 1].1)
    ensures r == Err(NoClient) ==> contacted == |targets|
  {
    contacted := 0;
    for i := 0 to |targets|
      invariant contacted == i
      invariant forall k :: 0 <= k < i ==> answer(targets[k].1) == Err(NoClient)
    {
      contacted := i + 1;
      match answer(targets[i].1) {
        case Ok(response) => return Ok(response), contacted;
        case Err(NoClient) =>
        case Err(e) => return Err(e), contacted;
      }
    }
    return Err(NoClient), contacted;
  }

  // ---------------------------------------------------------------------------
  // Race
  // ---------------------------------------------------------------------------

  /** A task of the race as it is joined: its reply, or a crash. */
  datatype Joined = Finished(endpointId: string, reply: Reply) | Crashed

  /** An answer from a user: anything but "unreachable" and "prompt ended unanswered". */
  predicate Decisive(j: Joined) {
    j.Finished? && j.reply != Err(NoClient) && j.reply != Err(NoDecision)
  }

  predicate Unanswered(j: Joined) {
    j.Finished? && j.reply == Err(NoDecision)
  }

  function RaceResult(arrivals: seq<Joined>): Reply {
    RaceFrom(arrivals, false)
  }

  function RaceFrom(arrivals: seq<Joined>, asked: bool): Reply {
    if arrivals == [] then Err(if asked then NoDecision else NoClient)
    else if Decisive(arrivals[0]) then arrivals[0].reply
    else RaceFrom(arrivals[1..], asked || Unanswered(arrivals[0]))
  }

  method RaceDecision(arrivals: seq<Joined>) returns (r: Reply)
    ensures r == RaceResult(arrivals)
  {
    var askedWithoutAnswer := false;
    for i := 0 to |arrivals|
      invariant RaceResult(arrivals) == RaceFrom(arrivals[i..], askedWithoutAnswer)
    {
      match arrivals[i] {
        case Finished(_, Ok(response)) => return Ok(response);
        case Finished(_, Err(NoClient)) =>
        case Finished(_, Err(NoDecision)) => askedWithoutAnswer := true;
        case Finished(_, Err(e)) => return Err(e);
        case Crashed =>
      }
    }
    return Err(if askedWithoutAnswer then NoDecision else NoClient);
  }

  lemma {:induction false} RaceFromSkips(a: seq<Joined>, b: seq<Joined>, asked: bool)
    requires forall i :: 0 <= i < |a| ==> !Decisive(a[i])
    ensures RaceFrom(a + b, asked) == RaceFrom(b, asked || exists i :: 0 <= i < |a| && Unanswered(a[i]))
  {
    if a == [] {
      assert a + b == b;
    } else {
      assert (a + b)[1..] == a[1..] + b;
      RaceFromSkips(a[1..], b, asked || Unanswered(a[0]));
      if i :| 0 <= i < |a| && Unanswered(a[i]) {
        assert i == 0 || Unanswered(a[1..][i - 1]);
      }
    }
  }

  /** The first decisive answer wins. */
  lemma RaceFirstDecisive(arrivals: seq<Joined>, k: nat)
    requires k < |arrivals| && Decisive(arrivals[k])
    requires forall i :: 0 <= i < k ==> !Decisive(arrivals[i])
    ensures RaceResult(arrivals) == arrivals[k].reply
  {
    RaceFromSkips(arrivals[..k], arrivals[k..], false);
    assert arrivals[..k] + arrivals[k..] == arrivals;
  }

  /** Nobody decided: "no decision" exactly when some device was asked. */
  lemma RaceUndecided(arrivals: seq<Joined>)
    requires forall i :: 0 <= i < |arrivals| ==> !Decisive(arrivals[i])
    ensures var asked := exists i :: 0 <= i < |arrivals| && Unanswered(arrivals[i]);
      RaceResult(arrivals) == Err(if asked then NoDecision else NoClient)
  {
    RaceFromSkips(arrivals, [], false);
    assert arrivals + [] == arrivals;
  }

  lemma FirstDecisive(arrivals: seq<Joined>) returns (k: nat)
    ensures k <= |arrivals|
    ensures forall i :: 0 <= i < k ==> !Decisive(arrivals[i])
    ensures k < |arrivals| ==> Decisive(arrivals[k])
  {
    k := 0;
    while k < |arrivals| && !Decisive(arrivals[k])
      invariant k <= |arrivals|
      invariant forall i :: 0 <= i < k ==> !Decisive(arrivals[i])
    {
      k := k + 1;
    }
  }

  function Decisions(arrivals: seq<Joined>): (r: seq<Joined>)
    ensures forall i :: 0 <= i < |r| ==> Decisive(r[i])
  {
    if arrivals == [] then []
    else (if Decisive(arrivals[0]) then [arrivals[0]] else []) + Decisions(arrivals[1..])
  }

  lemma {:induction false} RaceIgnoresAbstentions(arrivals: seq<Joined>, asked: bool)
    requires Decisions(arrivals) != []
    ensures RaceFrom(arrivals, asked) == Decisions(arrivals)[0].reply
  {
    if !Decisive(arrivals[0]) {
      RaceIgnoresAbstentions(arrivals[1..], asked || Unanswered(arrivals[0]));
    }
  }

  /** Unreachable, unanswered and crashed tasks, wherever they are inserted or moved, never
      change a decision: it depends on the decisive answers and their order alone. */
  lemma AbstentionsNeverDecide(arrivals: seq<Joined>, others: seq<Joined>)
    requires Decisions(arrivals) == Decisions(others) != []
    ensures RaceResult(arrivals) == RaceResult(others)
  {
    RaceIgnoresAbstentions(arrivals, false);
    RaceIgnoresAbstentions(others, false);
  }

  /** Over every arrival order the result is the same, provided the decisive answers agree. */
  lemma RaceOrderIndependent(arrivals: seq<Joined>, others: seq<Joined>)
    requires multiset(arrivals) == multiset(others)
    requires forall x, y :: x in arrivals && y in arrivals && Decisive(x) && Decisive(y) ==> x.reply == y.reply
    ensures RaceResult(arrivals) == RaceResult(others)
  {
    SameMembers(arrivals, others);
    var k := FirstDecisive(arrivals);
    var m := FirstDecisive(others);
    if k < |arrivals| {
      assert arrivals[k] in others;
      RaceFirstDecisive(arrivals, k);
      RaceFirstDecisive(others, m);
      assert others[m] in arrivals;
    } else {
      if m < |others| {
        assert others[m] in arrivals;
      }
      RaceUndecided(arrivals);
      RaceUndecided(others);
      if i :| 0 <= i < |arrivals| && Unanswered(arrivals[i]) {
        assert arrivals[i] in others;
      }
      if i :| 0 <= i < |others| && Unanswered(others[i]) {
        assert others[i] in arrivals;
      }
    }
  }

  /** A single device's answer is the result, whatever it is; a crash, or no device at all, counts
      as nobody reached. */
  lemma RaceOfOne(endpointId: string, reply: Reply)
    ensures RaceResult([Finished(endpointId, reply)]) == reply
    ensures RaceResult([Crashed]) == Err(NoClient) && RaceResult([]) == Err(NoClient)
  {
    var one, crash := [Finished(endpointId, reply)], [Crashed];
    assert one[1..] == [] && crash[1..] == [];
    assert RaceFrom([], true) == Err(NoDecision) && RaceFrom([], false) == Err(NoClient);
  }
}
