/** What a revocation keeps out, over every run that follows it. */
module AgentRevocation {
  import opened Agent
  import opened AgentSafety
  import opened Hub
  import opened Peers
  import opened Wrappers

  // ---------------------------------------------------------------------------
  // The promise and its condition
  // ---------------------------------------------------------------------------

  /** The name matches a registry entry of endpoint e. */
  ghost predicate Unregisters(h: HubState, nameOrId: string, e: string) {
    exists c :: c in h.registry && c.endpointId == e && Matches(c, nameOrId)
  }

  /** No handler of e is past its check without being registered yet. */
  ghost predicate NoneInFlight(s: System, e: string) {
    forall h :: h in s.handlers && s.handlers[h].endpointId == e ==> s.handlers[h].phase !in {Admitted, Stamped}
  }

  /** If e is connected, its connection goes by the name too. */
  predicate NamedIfConnected(s: System, nameOrId: string, e: string) {
    e in s.hub.clients ==> Named(s.hub.clients[e], nameOrId)
  }

  /** No step lets e in. */
  ghost predicate NotLetIn(states: seq<System>, steps: seq<Step>, e: string)
    requires Trace(states, steps)
  {
    forall j :: 0 <= j < |steps| ==> !Admits(states[j], steps[j], e)
  }

  ghost predicate OutThroughout(states: seq<System>, e: string) {
    forall i :: 0 <= i < |states| ==> e !in states[i].hub.clients
  }

  /** However things go on from s, e is not connected before it is let in again. */
  ghost predicate StaysOut(s: System, e: string) {
    forall states: seq<System>, steps: seq<Step> ::
      Trace(states, steps) && states[0] == s && NotLetIn(states, steps, e) ==> OutThroughout(states, e)
  }

  // ---------------------------------------------------------------------------
  // The condition suffices
  // ---------------------------------------------------------------------------

  ghost predicate Out(s: System, e: string) {
    e !in s.hub.clients && NoneInFlight(s, e)
  }

  lemma StepKeepsOut(s: System, step: Step, e: string)
    requires Out(s, e) && Enabled(s, step) && !Admits(s, step, e)
    ensures Out(Next(s, step), e)
  {
    StepKeepsNoneInFlight(s, step, e);
    if !TouchesClients(step) {
      OtherStepsKeepClients(s, step);
    }
  }

  lemma StepKeepsNoneInFlight(s: System, step: Step, e: string)
    requires NoneInFlight(s, e) && Enabled(s, step) && !Admits(s, step, e)
    ensures NoneInFlight(Next(s, step), e)
  {
  }

  lemma {:induction false} OutLasts(states: seq<System>, steps: seq<Step>, i: nat, e: string)
    requires Trace(states, steps) && i < |states|
    requires Out(states[0], e) && NotLetIn(states, steps, e)
    ensures Out(states[i], e)
  {
    if i > 0 {
      OutLasts(states, steps, i - 1, e);
      assert Enabled(states[i - 1], steps[i - 1]);
      StepKeepsOut(states[i - 1], steps[i - 1], e);
    }
  }

  // ---------------------------------------------------------------------------
  // The condition is necessary
  // ---------------------------------------------------------------------------

  /** A handler past its check registers without looking again. */
  lemma InFlightComesIn(s: System, h: nat) returns (states: seq<System>, steps: seq<Step>)
    requires InPhase(s, h, Admitted) || InPhase(s, h, Stamped)
    ensures Trace(states, steps) && states[0] == s && NotLetIn(states, steps, s.handlers[h].endpointId)
    ensures s.handlers[h].endpointId in states[|steps|].hub.clients
    ensures var c := s.handlers[h];
      states[|steps|].hub.registry == Touch(s.hub.registry, c.endpointId, c.capabilities, 0)
  {
    states, steps := [s], [];
    if InPhase(s, h, Admitted) {
      states, steps := Extended(states, steps, TakeStamp(h, s.instant));
    }
    states, steps := Extended(states, steps, Register(h, 0));
  }

  lemma InFlightIsNotOut(s: System, h: nat)
    requires InPhase(s, h, Admitted) || InPhase(s, h, Stamped)
    ensures !StaysOut(s, s.handlers[h].endpointId)
  {
    var states, steps := InFlightComesIn(s, h);
    assert !OutThroughout(states, s.handlers[h].endpointId);
  }

  lemma StaysOutNeedsNoneInFlight(s: System, e: string)
    requires StaysOut(s, e)
    ensures NoneInFlight(s, e)
  {
    if h :| h in s.handlers && s.handlers[h].endpointId == e && s.handlers[h].phase in {Admitted, Stamped} {
      InFlightIsNotOut(s, h);
    }
  }

  lemma StaysOutNeedsAbsence(s: System, e: string)
    requires StaysOut(s, e)
    ensures e !in s.hub.clients
  {
    var states, steps: seq<Step> := [s], [];
    assert Trace(states, steps) && NotLetIn(states, steps, e);
    assert e !in states[0].hub.clients;
  }

  // ---------------------------------------------------------------------------
  // Main result
  // ---------------------------------------------------------------------------

  /** A revocation keeps an endpoint out until it is let in again exactly when, at the
      revocation, none of its handlers was between its check and its registration and a
      connected one goes by the name given in its connection too. */
  lemma RevocationHoldsIff(s: System, nameOrId: string, e: string)
    requires Unregisters(s.hub, nameOrId, e)
    ensures StaysOut(Next(s, Revoke(nameOrId, true)), e) <==> NoneInFlight(s, e) && NamedIfConnected(s, nameOrId, e)
  {
    var s' := Next(s, Revoke(nameOrId, true));
    assert s'.handlers == s.handlers;
    assert e in s'.hub.clients <==> e in s.hub.clients && !Named(s.hub.clients[e], nameOrId);
    if StaysOut(s', e) {
      StaysOutNeedsNoneInFlight(s', e);
      StaysOutNeedsAbsence(s', e);
    }
    if Out(s', e) {
      forall states: seq<System>, steps: seq<Step>
        | Trace(states, steps) && states[0] == s' && NotLetIn(states, steps, e)
        ensures OutThroughout(states, e)
      {
        forall i | 0 <= i < |states|
          ensures e !in states[i].hub.clients
        {
          OutLasts(states, steps, i, e);
        }
      }
    }
  }

  /** The same within one run: after such a revocation at step i, the endpoint is not connected
      in any state up to the step that next lets it in. */
  lemma RevokedIsOut(states: seq<System>, steps: seq<Step>, i: nat, j: nat, nameOrId: string, e: string)
    requires Run(states, steps) && i < j < |states| && steps[i] == Revoke(nameOrId, true)
    requires Unregisters(states[i].hub, nameOrId, e)
    requires NoneInFlight(states[i], e) && NamedIfConnected(states[i], nameOrId, e)
    requires forall n :: i < n < j ==> !Admits(states[n], steps[n], e)
    ensures e !in states[j].hub.clients
  {
    RevocationHoldsIff(states[i], nameOrId, e);
    var later, after := states[i + 1..], steps[i + 1..j];
    later := later[..j - i];
    assert Enabled(states[i], steps[i]) && states[i + 1] == Next(states[i], steps[i]);
    assert Trace(later, after) by {
      forall n | 0 <= n < |after|
        ensures Enabled(later[n], after[n]) && later[n + 1] == Next(later[n], after[n])
      {
        assert later[n] == states[i + 1 + n] && after[n] == steps[i + 1 + n] && later[n + 1] == states[i + 1 + n + 1];
        assert Enabled(states[i + 1 + n], steps[i + 1 + n]);
      }
    }
    assert later[0] == states[i + 1] && later[j - i - 1] == states[j];
  }

  // ---------------------------------------------------------------------------
  // Coming back
  // ---------------------------------------------------------------------------

  lemma RevocationUnregisters(s: System, nameOrId: string, saved: bool, e: string)
    requires UniqueIds(s.hub.registry) && Unregisters(s.hub, nameOrId, e)
    ensures FindById(Next(s, Revoke(nameOrId, saved)).hub.registry, e).None?
  {
    var registry := Remove(s.hub.registry, nameOrId);
    RemoveTakesMatches(s.hub.registry, nameOrId);
    FindByIdMeaning(registry, e);
  }

  lemma TouchKeepsIds(peers: seq<ClientEntry>, endpointId: string, capabilities: seq<string>, now: int, e: string)
    ensures FindById(Touch(peers, endpointId, capabilities, now), e).Some? <==> FindById(peers, e).Some?
    ensures UniqueIds(peers) ==> UniqueIds(Touch(peers, endpointId, capabilities, now))
  {
    var k := TouchRefreshesFirst(peers, endpointId, capabilities, now);
    var touched := Touch(peers, endpointId, capabilities, now);
    assert |touched| == |peers| && forall i :: 0 <= i < |peers| ==> touched[i].endpointId == peers[i].endpointId;
    FindByIdMeaning(peers, e);
    FindByIdMeaning(touched, e);
    SameIds(peers, touched);
  }

  lemma SameIds(peers: seq<ClientEntry>, others: seq<ClientEntry>)
    requires |peers| == |others| && forall i :: 0 <= i < |peers| ==> peers[i].endpointId == others[i].endpointId
    ensures Ids(peers) == Ids(others)
  {
    forall e
      ensures e in Ids(peers) <==> e in Ids(others)
    {
      if c :| c in peers && c.endpointId == e {
        var i :| 0 <= i < |peers| && peers[i] == c;
        assert others[i] in others && others[i].endpointId == e;
      }
      if c :| c in others && c.endpointId == e {
        var i :| 0 <= i < |others| && others[i] == c;
        assert peers[i] in peers && peers[i].endpointId == e;
      }
    }
  }

  lemma StepKeepsUnregistered(s: System, step: Step, e: string)
    requires FindById(s.hub.registry, e).None? && Enabled(s, step) && !Admits(s, step, e)
    ensures FindById(Next(s, step).hub.registry, e).None?
  {
    FindByIdMeaning(s.hub.registry, e);
    FindByIdMeaning(Next(s, step).hub.registry, e);
    match step {
      case PresentToken(h, now, _) => AddReplaces(s.hub.registry, EnrolledEntry(s.handlers[h], now));
      case Register(h, now) =>
        var c := s.handlers[h];
        TouchKeepsIds(s.hub.registry, c.endpointId, c.capabilities, now, e);
      case Revoke(nameOrId, _) => RemoveTakesMatches(s.hub.registry, nameOrId);
      case _ => OtherStepsKeepRegistry(s, step);
    }
  }

  lemma OtherStepsKeepRegistry(s: System, step: Step)
    requires Enabled(s, step) && !step.PresentToken? && !step.Register? && !step.Revoke?
    ensures Next(s, step).hub.registry == s.hub.registry
  {
  }

  lemma StepKeepsUnique(s: System, step: Step)
    requires UniqueIds(s.hub.registry) && Enabled(s, step)
    ensures UniqueIds(Next(s, step).hub.registry)
  {
    match step {
      case PresentToken(h, now, _) => AddReplaces(s.hub.registry, EnrolledEntry(s.handlers[h], now));
      case Register(h, now) =>
        var c := s.handlers[h];
        TouchKeepsIds(s.hub.registry, c.endpointId, c.capabilities, now, "");
      case Revoke(nameOrId, _) => RemoveTakesMatches(s.hub.registry, nameOrId);
      case _ => OtherStepsKeepRegistry(s, step);
    }
  }

  lemma {:induction false} AlwaysUnique(states: seq<System>, steps: seq<Step>, i: nat)
    requires Run(states, steps) && UniqueIds(states[0].hub.registry) && i < |states|
    ensures UniqueIds(states[i].hub.registry)
  {
    if i > 0 {
      AlwaysUnique(states, steps, i - 1);
      assert Enabled(states[i - 1], steps[i - 1]);
      StepKeepsUnique(states[i - 1], steps[i - 1]);
    }
  }

  lemma {:induction false} UnregisteredLasts(states: seq<System>, steps: seq<Step>, i: nat, j: nat, nameOrId: string,
                                             saved: bool, e: string)
    requires Run(states, steps) && UniqueIds(states[0].hub.registry) && i < j < |states|
    requires steps[i] == Revoke(nameOrId, saved) && Unregisters(states[i].hub, nameOrId, e)
    requires forall n :: i < n < j ==> !Admits(states[n], steps[n], e)
    ensures FindById(states[j].hub.registry, e).None?
  {
    assert Enabled(states[j - 1], steps[j - 1]);
    if j == i + 1 {
      AlwaysUnique(states, steps, i);
      RevocationUnregisters(states[i], nameOrId, saved, e);
    } else {
      UnregisteredLasts(states, steps, i, j - 1, nameOrId, saved, e);
      StepKeepsUnregistered(states[j - 1], steps[j - 1], e);
    }
  }

  /** With unique ids in the registry file, the step that next lets a revoked endpoint in is an
      enrollment with a token: no registry check does, whether or not the removal was saved. */
  lemma NextAdmissionIsEnrollment(states: seq<System>, steps: seq<Step>, i: nat, j: nat, nameOrId: string,
                                  saved: bool, e: string)
    requires Run(states, steps) && UniqueIds(states[0].hub.registry) && i < j < |steps|
    requires steps[i] == Revoke(nameOrId, saved) && Unregisters(states[i].hub, nameOrId, e)
    requires forall n :: i < n < j ==> !Admits(states[n], steps[n], e)
    requires Admits(states[j], steps[j], e)
    ensures steps[j].PresentToken?
  {
    UnregisteredLasts(states, steps, i, j, nameOrId, saved, e);
  }

  // ---------------------------------------------------------------------------
  // Both causes occur
  // ---------------------------------------------------------------------------

  function Enrolled(e: string, name: string, details: ClientDetails): System {
    System(HubState(map[], [Peer(e, name, details)], [], map[], 0), map[], map[], 0, History([], [], {}, {}, 0))
  }

  /** A device that reconnected under a new name stays connected when its enrolled name is
      revoked, though no registry entry of it is left. */
  lemma RenamedStaysConnected(e: string, oldName: string, newName: string, details: ClientDetails)
    returns (states: seq<System>, steps: seq<Step>)
    requires oldName != newName && oldName != e
    ensures Run(states, steps) && |steps| > 0 && steps[|steps| - 1] == Revoke(oldName, true)
    ensures var s, s' := states[|steps| - 1], states[|steps|];
      && Unregisters(s.hub, oldName, e) && NoneInFlight(s, e) && !NamedIfConnected(s, oldName, e)
      && e in s'.hub.clients && FindById(s'.hub.registry, e).None?
  {
    states, steps := [Enrolled(e, oldName, details)], [];
    states, steps := Connected(states, steps, 0, e, newName);
    var s := states[|steps|];
    assert s.hub.registry == [Peer(e, oldName, ClientDetails(details.enrolledAt, Some(0), []))];
    assert s.hub.registry[0] in s.hub.registry;
    RevocationUnregisters(s, oldName, true, e);
    states, steps := Extended(states, steps, Revoke(oldName, true));
  }

  lemma CheckedBefore(e: string, name: string, details: ClientDetails) returns (states: seq<System>, steps: seq<Step>)
    ensures Run(states, steps)
    ensures steps == [Connect(0, e, name, "", [], None), CheckRegistry(0)]
    ensures var s := states[2];
      && s.handlers == map[0 := Handler(e, name, "", [], None, Admitted, 0)]
      && s.instant == 0 && s.hub.clients == map[] && s.hub.registry == [Peer(e, name, details)]
  {
    states, steps := [Enrolled(e, name, details)], [];
    states, steps := Extended(states, steps, Connect(0, e, name, "", [], None));
    states, steps := Extended(states, steps, CheckRegistry(0));
  }

  lemma RevokedInFlight(e: string, name: string, details: ClientDetails) returns (states: seq<System>, steps: seq<Step>)
    ensures Run(states, steps)
    ensures steps == [Connect(0, e, name, "", [], None), CheckRegistry(0), Revoke(e, true)]
    ensures Unregisters(states[2].hub, e, e) && !NoneInFlight(states[2], e) && NamedIfConnected(states[2], e, e)
    ensures var s := states[3];
      && s.handlers == map[0 := Handler(e, name, "", [], None, Admitted, 0)]
      && s.instant == 0 && e !in s.hub.clients && FindById(s.hub.registry, e).None?
  {
    states, steps := CheckedBefore(e, name, details);
    assert states[2].hub.registry[0] in states[2].hub.registry;
    RevocationUnregisters(states[2], e, true, e);
    states, steps := Extended(states, steps, Revoke(e, true));
  }

  /** A device whose check came before the revocation and whose registration comes after it is
      connected then, though no registry entry of it is left. */
  lemma InFlightStaysConnected(e: string, name: string, details: ClientDetails)
    returns (states: seq<System>, steps: seq<Step>)
    ensures Run(states, steps)
    ensures steps ==
      [Connect(0, e, name, "", [], None), CheckRegistry(0), Revoke(e, true), TakeStamp(0, 0), Register(0, 0)]
    ensures Unregisters(states[2].hub, e, e) && !NoneInFlight(states[2], e) && NamedIfConnected(states[2], e, e)
    ensures e !in states[3].hub.clients && e in states[5].hub.clients && FindById(states[5].hub.registry, e).None?
  {
    states, steps := RevokedInFlight(e, name, details);
    TouchKeepsIds(states[3].hub.registry, e, [], 0, e);
    states, steps := Extended(states, steps, TakeStamp(0, 0));
    states, steps := Extended(states, steps, Register(0, 0));
  }

  // ---------------------------------------------------------------------------
  // Going too far
  // ---------------------------------------------------------------------------

  /** A saved revocation disconnects a device and leaves it enrolled exactly when the name is one
      its connection goes by and no registry entry of it does. */
  lemma RevocationOverreachesIff(s: System, nameOrId: string, e: string)
    requires UniqueIds(s.hub.registry) && Revokes(s.hub, nameOrId)
    requires e in s.hub.clients && FindById(s.hub.registry, e).Some?
    ensures var s' := Next(s, Revoke(nameOrId, true));
      e !in s'.hub.clients && FindById(s'.hub.registry, e).Some?
      <==> Named(s.hub.clients[e], nameOrId) && !Unregisters(s.hub, nameOrId, e)
  {
    var registry := Remove(s.hub.registry, nameOrId);
    RemoveTakesMatches(s.hub.registry, nameOrId);
    FindByIdMeaning(s.hub.registry, e);
    FindByIdMeaning(registry, e);
    if Unregisters(s.hub, nameOrId, e) {
      RevocationUnregisters(s, nameOrId, true, e);
    } else {
      assert FindById(s.hub.registry, e).value in registry;
    }
  }

  /** A run in which it does: a device that reconnected under the name another enrolled with goes
      with that other one. */
  lemma NamesakeIsDisconnected(e: string, other: string, name: string, details: ClientDetails)
    returns (states: seq<System>, steps: seq<Step>)
    requires e != other && name != e && name != ""
    ensures Run(states, steps) && |steps| > 0 && steps[|steps| - 1] == Revoke(name, true)
    ensures var s, s' := states[|steps| - 1], states[|steps|];
      && UniqueIds(s.hub.registry) && e in s.hub.clients && !Unregisters(s.hub, name, e)
      && e !in s'.hub.clients && FindById(s'.hub.registry, e).Some?
  {
    var registry := [Peer(other, name, details), Peer(e, "", details)];
    states, steps := [System(HubState(map[], registry, [], map[], 0), map[], map[], 0, History([], [], {}, {}, 0))], [];
    states, steps := Connected(states, steps, 0, e, name);
    var s := states[|steps|];
    NamesakeRegistry(registry, e, other, name, details);
    assert s.hub.registry[0] in s.hub.registry;
    RevocationOverreachesIff(s, name, e);
    states, steps := Extended(states, steps, Revoke(name, true));
  }

  lemma NamesakeRegistry(registry: seq<ClientEntry>, e: string, other: string, name: string, details: ClientDetails)
    requires e != other && registry == [Peer(other, name, details), Peer(e, "", details)]
    ensures Touch(registry, e, [], 0) == [Peer(other, name, details), Peer(e, "", Refreshed(details, [], 0))]
  {
    var k := TouchRefreshesFirst(registry, e, [], 0);
  }
}
