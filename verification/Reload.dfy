/** A device's connection tasks, one per enrolled server, kept in step with the registry. */
module Reload {
  import opened Peers
  import opened Wrappers

  /** `active` maps endpoint ids to task handles; `live` says which tasks run, and for which
      server entry each was spawned. */
  datatype Daemon = Daemon(active: map<string, nat>, live: map<nat, ServerEntry>, next: nat)

  const EMPTY := Daemon(map[], map[], 0)

  // ---------------------------------------------------------------------------
  // The operations as functions
  // ---------------------------------------------------------------------------

  function Spawned(d: Daemon, server: ServerEntry): Daemon {
    Daemon(d.active[server.endpointId := d.next], d.live[d.next := server], d.next + 1)
  }

  /** The initial load spawns a task for every entry. */
  function AllSpawned(d: Daemon, servers: seq<ServerEntry>): Daemon
    decreases |servers|
  {
    if servers == [] then d else AllSpawned(Spawned(d, servers[0]), servers[1..])
  }

  ghost function Departed(d: Daemon, ids: set<string>): set<nat> {
    set k | k in d.active && k !in ids :: d.active[k]
  }

  ghost function DepartedDropped(d: Daemon, ids: set<string>): Daemon {
    d.(active := map k | k in d.active && k in ids :: d.active[k], live := d.live - Departed(d, ids))
  }

  function MissingSpawned(d: Daemon, servers: seq<ServerEntry>): Daemon
    decreases |servers|
  {
    if servers == [] then d
    else MissingSpawned(if servers[0].endpointId in d.active then d else Spawned(d, servers[0]), servers[1..])
  }

  ghost function Reloaded(d: Daemon, servers: seq<ServerEntry>): Daemon {
    MissingSpawned(DepartedDropped(d, Ids(servers)), servers)
  }

  ghost function ShutDown(d: Daemon): Daemon {
    d.(live := d.live - d.active.Values)
  }

  // ---------------------------------------------------------------------------
  // The invariant
  // ---------------------------------------------------------------------------

  /** Live tasks are exactly the map's values, one per id, each for a server with that id. */
  ghost predicate TasksMatch(d: Daemon) {
    && (forall k :: k in d.active ==> d.active[k] in d.live && d.live[d.active[k]].endpointId == k)
    && (forall t :: t in d.live ==>
          t < d.next && d.live[t].endpointId in d.active && d.active[d.live[t].endpointId] == t)
  }

  lemma SpawnKeepsTasks(d: Daemon, server: ServerEntry)
    requires TasksMatch(d) && server.endpointId !in d.active
    ensures TasksMatch(Spawned(d, server))
  {
  }

  /** d' has a task for each active id of d and each server: the same task for the former, a
      new one, for the first entry with the id, for the others. */
  ghost predicate Covers(d: Daemon, servers: seq<ServerEntry>, d': Daemon)
    requires TasksMatch(d)
  {
    && TasksMatch(d')
    && d'.active.Keys == d.active.Keys + Ids(servers)
    && (forall k :: k in d.active ==> d'.active[k] == d.active[k] && d'.live[d'.active[k]] == d.live[d.active[k]])
    && (forall k :: k in d'.active && k !in d.active ==>
          d'.active[k] >= d.next && Some(d'.live[d'.active[k]]) == FindById(servers, k))
  }

  lemma {:induction false} MissingSpawnedCovers(d: Daemon, servers: seq<ServerEntry>)
    requires TasksMatch(d)
    ensures Covers(d, servers, MissingSpawned(d, servers))
    decreases |servers|
  {
    if servers != [] {
      IdsStep(servers);
      if servers[0].endpointId in d.active {
        MissingSpawnedCovers(d, servers[1..]);
      } else {
        SpawnKeepsTasks(d, servers[0]);
        MissingSpawnedCovers(Spawned(d, servers[0]), servers[1..]);
        CoversAfterSpawn(d, servers, MissingSpawned(d, servers));
      }
    }
  }

  lemma IdsStep(servers: seq<ServerEntry>)
    requires servers != []
    ensures Ids(servers) == {servers[0].endpointId} + Ids(servers[1..])
  {
    assert servers == [servers[0]] + servers[1..];
  }

  lemma CoversAfterSpawn(d: Daemon, servers: seq<ServerEntry>, d': Daemon)
    requires TasksMatch(d) && servers != [] && servers[0].endpointId !in d.active
    requires TasksMatch(Spawned(d, servers[0]))
    requires Covers(Spawned(d, servers[0]), servers[1..], d')
    ensures Covers(d, servers, d')
  {
    assert d'.active.Keys == d.active.Keys + Ids(servers) by {
      IdsStep(servers);
      assert Spawned(d, servers[0]).active.Keys == d.active.Keys + {servers[0].endpointId};
    }
    KeptTasksAfterSpawn(d, servers, d');
    forall k | k in d'.active && k !in d.active
      ensures d'.active[k] >= d.next && Some(d'.live[d'.active[k]]) == FindById(servers, k)
    {
      NewTaskAfterSpawn(d, servers, d', k);
    }
  }

  lemma KeptTasksAfterSpawn(d: Daemon, servers: seq<ServerEntry>, d': Daemon)
    requires TasksMatch(d) && servers != [] && servers[0].endpointId !in d.active
    requires TasksMatch(Spawned(d, servers[0]))
    requires Covers(Spawned(d, servers[0]), servers[1..], d')
    ensures forall k :: k in d.active ==>
      k in d'.active && d'.active[k] == d.active[k] && d'.live[d'.active[k]] == d.live[d.active[k]]
  {
    forall k | k in d.active
      ensures k in d'.active && d'.active[k] == d.active[k] && d'.live[d'.active[k]] == d.live[d.active[k]]
    {
      var d1 := Spawned(d, servers[0]);
      assert k in d1.active && d1.active[k] == d.active[k] && d1.live[d1.active[k]] == d.live[d.active[k]];
    }
  }

  lemma NewTaskAfterSpawn(d: Daemon, servers: seq<ServerEntry>, d': Daemon, k: string)
    requires TasksMatch(d) && servers != [] && servers[0].endpointId !in d.active
    requires TasksMatch(Spawned(d, servers[0]))
    requires Covers(Spawned(d, servers[0]), servers[1..], d')
    requires k in d'.active && k !in d.active
    ensures d'.active[k] >= d.next && Some(d'.live[d'.active[k]]) == FindById(servers, k)
  {
    var d1 := Spawned(d, servers[0]);
    if k == servers[0].endpointId {
      assert d'.active[k] == d1.active[k] == d.next;
    } else {
      assert k !in d1.active;
    }
  }

  lemma DropKeepsTasks(d: Daemon, ids: set<string>)
    requires TasksMatch(d)
    ensures var d' := DepartedDropped(d, ids);
      && TasksMatch(d')
      && d'.active.Keys == d.active.Keys * ids
      && (forall k :: k in d'.active ==> d'.live[d'.active[k]] == d.live[d.active[k]])
  {
  }

  /** After a reload the active ids are the registry's, kept ids keep their task, and each new
      id has a new task for its registry entry. */
  lemma ReloadMeaning(d: Daemon, servers: seq<ServerEntry>)
    requires TasksMatch(d)
    ensures var d' := Reloaded(d, servers);
      && TasksMatch(d')
      && d'.active.Keys == Ids(servers)
      && (forall k :: k in d.active && k in d'.active ==>
            d'.active[k] == d.active[k] && d'.live[d'.active[k]] == d.live[d.active[k]])
      && (forall k :: k in d'.active && k !in d.active ==>
            d'.active[k] >= d.next && Some(d'.live[d'.active[k]]) == FindById(servers, k))
  {
    DropKeepsTasks(d, Ids(servers));
    MissingSpawnedCovers(DepartedDropped(d, Ids(servers)), servers);
  }

  lemma {:induction false} NothingMissing(d: Daemon, servers: seq<ServerEntry>)
    requires Ids(servers) <= d.active.Keys
    ensures MissingSpawned(d, servers) == d
  {
    if servers != [] {
      assert servers[0].endpointId in Ids(servers);
      assert Ids(servers[1..]) <= Ids(servers);
      NothingMissing(d, servers[1..]);
    }
  }

  /** Reloading again changes nothing. */
  lemma ReloadIsIdempotent(d: Daemon, servers: seq<ServerEntry>)
    requires TasksMatch(d)
    ensures Reloaded(Reloaded(d, servers), servers) == Reloaded(d, servers)
  {
    ReloadMeaning(d, servers);
    var d' := Reloaded(d, servers);
    assert DepartedDropped(d', Ids(servers)) == d';
    NothingMissing(d', servers);
  }

  /** A kept task goes on with the entry it was spawned for: after a reload a task serves the
      current registry entry exactly when its id is new or its entry did not change. */
  lemma TaskIsCurrentIff(d: Daemon, servers: seq<ServerEntry>, k: string)
    requires TasksMatch(d) && k in Ids(servers)
    ensures var d' := Reloaded(d, servers);
      k in d'.active && d'.active[k] in d'.live
      && (Some(d'.live[d'.active[k]]) == FindById(servers, k)
          <==> k !in d.active || Some(d.live[d.active[k]]) == FindById(servers, k))
  {
    ReloadMeaning(d, servers);
  }

  lemma ShutDownLeavesNone(d: Daemon)
    requires TasksMatch(d)
    ensures ShutDown(d).live == map[]
  {
    forall t | t in d.live
      ensures t in d.active.Values
    {
      assert d.live[t].endpointId in d.active;
    }
  }

  // ---------------------------------------------------------------------------
  // The initial load
  // ---------------------------------------------------------------------------

  lemma {:induction false} AllSpawnedUnique(d: Daemon, servers: seq<ServerEntry>)
    requires TasksMatch(d) && UniqueIds(servers)
    requires forall i :: 0 <= i < |servers| ==> servers[i].endpointId !in d.active
    ensures TasksMatch(AllSpawned(d, servers))
    ensures AllSpawned(d, servers).active.Keys == d.active.Keys + Ids(servers)
    decreases |servers|
  {
    if servers != [] {
      SpawnKeepsTasks(d, servers[0]);
      var d1, tail := Spawned(d, servers[0]), servers[1..];
      assert UniqueIds(tail) && forall i :: 0 <= i < |tail| ==> tail[i].endpointId !in d1.active by {
        forall i | 0 <= i < |tail|
          ensures tail[i].endpointId != servers[0].endpointId && tail[i].endpointId !in d.active
        {
          assert tail[i] == servers[i + 1];
        }
      }
      AllSpawnedUnique(d1, tail);
      IdsStep(servers);
    }
  }

  /** Every task spawned stays in `live`; one whose handle was overwritten is never in the map again. */
  lemma {:induction false} AllSpawnedKeepsOrphan(d: Daemon, servers: seq<ServerEntry>, t: nat)
    requires t in d.live && t < d.next && t !in d.active.Values
    ensures var d' := AllSpawned(d, servers); t in d'.live && t !in d'.active.Values
    decreases |servers|
  {
    if servers != [] {
      AllSpawnedKeepsOrphan(Spawned(d, servers[0]), servers[1..], t);
    }
  }

  lemma {:induction false} AllSpawnedDuplicate(d: Daemon, servers: seq<ServerEntry>, j: nat)
    requires TasksMatch(d) && j < |servers| && servers[j].endpointId in d.active
    ensures !TasksMatch(AllSpawned(d, servers))
    decreases |servers|
  {
    var d1 := Spawned(d, servers[0]);
    if servers[0].endpointId in d.active {
      var orphan := d.active[servers[0].endpointId];
      assert orphan !in d1.active.Values by {
        forall k | k in d1.active
          ensures d1.active[k] != orphan
        {
          assert k in d.active ==> d.live[d.active[k]].endpointId == k;
        }
      }
      AllSpawnedKeepsOrphan(d1, servers[1..], orphan);
      var d' := AllSpawned(d, servers);
      assert d'.live[orphan].endpointId in d'.active ==> d'.active[d'.live[orphan].endpointId] in d'.active.Values;
    } else {
      SpawnKeepsTasks(d, servers[0]);
      AllSpawnedDuplicate(d1, servers[1..], j - 1);
    }
  }

  lemma {:induction false} AllSpawnedRepeated(d: Daemon, servers: seq<ServerEntry>, i: nat, j: nat)
    requires TasksMatch(d) && i < j < |servers| && servers[i].endpointId == servers[j].endpointId
    ensures !TasksMatch(AllSpawned(d, servers))
    decreases i
  {
    if servers[0].endpointId in d.active {
      AllSpawnedDuplicate(d, servers, 0);
    } else {
      SpawnKeepsTasks(d, servers[0]);
      if i == 0 {
        AllSpawnedDuplicate(Spawned(d, servers[0]), servers[1..], j - 1);
      } else {
        AllSpawnedRepeated(Spawned(d, servers[0]), servers[1..], i - 1, j - 1);
      }
    }
  }

  /** The initial load inserts without looking, so it starts from matching tasks exactly when
      the registry file lists no id twice. */
  lemma InitialLoadMatchesIff(servers: seq<ServerEntry>)
    ensures TasksMatch(AllSpawned(EMPTY, servers)) <==> UniqueIds(servers)
  {
    if UniqueIds(servers) {
      AllSpawnedUnique(EMPTY, servers);
    } else {
      var i, j :| 0 <= i < j < |servers| && servers[i].endpointId == servers[j].endpointId;
      AllSpawnedRepeated(EMPTY, servers, i, j);
    }
  }

  // ---------------------------------------------------------------------------
  // Runs
  // ---------------------------------------------------------------------------

  /** The registry file, changed by enroll and forget commands, and the daemon, which reads it. */
  datatype System = System(registry: seq<ServerEntry>, daemon: Daemon, running: bool)

  datatype Step = Enroll(entry: ServerEntry) | Forget(idOrName: string) | ReloadStep(readable: bool) | Stop

  ghost function Next(s: System, step: Step): System {
    match step
    case Enroll(entry) => s.(registry := Add(s.registry, entry))
    case Forget(idOrName) => s.(registry := Remove(s.registry, idOrName))
    case ReloadStep(readable) => if s.running && readable then s.(daemon := Reloaded(s.daemon, s.registry)) else s
    case Stop => if s.running then s.(daemon := ShutDown(s.daemon), running := false) else s
  }

  /** The initial load reads the registry; a phone that cannot read it starts with no server. */
  ghost predicate Initial(s: System) {
    s.running && (s.daemon == AllSpawned(EMPTY, s.registry) || s.daemon == EMPTY)
  }

  ghost predicate Run(states: seq<System>, steps: seq<Step>) {
    && |states| == |steps| + 1
    && Initial(states[0])
    && forall i :: 0 <= i < |steps| ==> states[i + 1] == Next(states[i], steps[i])
  }

  ghost predicate Safe(s: System) {
    && UniqueIds(s.registry)
    && (s.running ==> TasksMatch(s.daemon))
    && (!s.running ==> s.daemon.live == map[])
  }

  lemma SafeStep(s: System, step: Step)
    requires Safe(s)
    ensures Safe(Next(s, step))
  {
    match step {
      case Enroll(entry) => AddReplaces(s.registry, entry);
      case Forget(idOrName) => RemoveTakesMatches(s.registry, idOrName);
      case ReloadStep(_) => if s.running { ReloadMeaning(s.daemon, s.registry); }
      case Stop => if s.running { ShutDownLeavesNone(s.daemon); }
    }
  }

  /** From a registry without duplicates: tasks match the map as long as the daemon runs, and
      none is alive afterwards. */
  lemma {:induction false} AlwaysSafe(states: seq<System>, steps: seq<Step>, i: nat)
    requires Run(states, steps) && UniqueIds(states[0].registry) && i < |states|
    ensures Safe(states[i])
  {
    if i == 0 {
      InitialLoadMatchesIff(states[0].registry);
    } else {
      AlwaysSafe(states, steps, i - 1);
      SafeStep(states[i - 1], steps[i - 1]);
    }
  }

  /** After each reload in a run, exactly the enrolled servers have a task, and kept ids keep theirs. */
  lemma ReloadFollowsRegistry(states: seq<System>, steps: seq<Step>, i: nat)
    requires Run(states, steps) && UniqueIds(states[0].registry) && i < |steps|
    requires steps[i] == ReloadStep(true) && states[i].running
    ensures var d, d' := states[i].daemon, states[i + 1].daemon;
      && d'.active.Keys == Ids(states[i].registry)
      && (forall k :: k in d.active && k in d'.active ==> d'.active[k] == d.active[k])
      && d'.live.Keys == d'.active.Values
  {
    AlwaysSafe(states, steps, i);
    AlwaysSafe(states, steps, i + 1);
    ReloadMeaning(states[i].daemon, states[i].registry);
    var d' := states[i + 1].daemon;
    forall t | t in d'.live
      ensures t in d'.active.Values
    {
      assert d'.live[t].endpointId in d'.active;
    }
  }

  /** A run in which a server is enrolled, then enrolled again with another address: after both
      reloads its task still serves the old entry. */
  lemma StaleTaskReachable(before: ServerEntry, after: ServerEntry) returns (states: seq<System>, steps: seq<Step>)
    requires before.endpointId == after.endpointId && before != after
    ensures Run(states, steps) && UniqueIds(states[0].registry)
    ensures steps == [Enroll(before), ReloadStep(true), Enroll(after), ReloadStep(true)]
    ensures var s := states[4]; var k := after.endpointId;
      && s.registry == [after] && s.running
      && k in s.daemon.active && s.daemon.active[k] in s.daemon.live
      && s.daemon.live[s.daemon.active[k]] == before
  {
    var s0 := System([], EMPTY, true);
    var s1 := Next(s0, Enroll(before));
    var s2 := Next(s1, ReloadStep(true));
    var s3 := Next(s2, Enroll(after));
    var s4 := Next(s3, ReloadStep(true));
    states := [s0, s1, s2, s3, s4];
    steps := [Enroll(before), ReloadStep(true), Enroll(after), ReloadStep(true)];
    assert s1.registry == [before] && s3.registry == [after];
    FirstTask(before);
    TaskStays(s3.daemon, before, after);
  }

  lemma FirstTask(server: ServerEntry)
    ensures var d := Reloaded(EMPTY, [server]); var k := server.endpointId;
      TasksMatch(d) && k in d.active && d.live[d.active[k]] == server
  {
    ReloadMeaning(EMPTY, [server]);
    assert server in [server];
  }

  lemma TaskStays(d: Daemon, before: ServerEntry, after: ServerEntry)
    requires before.endpointId == after.endpointId
    requires TasksMatch(d) && before.endpointId in d.active && d.live[d.active[before.endpointId]] == before
    ensures var d' := Reloaded(d, [after]); var k := after.endpointId;
      k in d'.active && d'.active[k] in d'.live && d'.live[d'.active[k]] == before
  {
    ReloadMeaning(d, [after]);
    assert after in [after];
  }

  /** After a forget and a reload, the active ids are those of the entries that go neither by that
      id nor by that name. */
  lemma ForgottenIsDropped(s: System, idOrName: string)
    requires s.running && TasksMatch(s.daemon)
    ensures var s' := Next(Next(s, Forget(idOrName)), ReloadStep(true));
      forall k :: k in s'.daemon.active <==>
        exists c :: c in s.registry && c.endpointId == k && k != idOrName && c.name != idOrName
  {
    RemoveTakesMatches(s.registry, idOrName);
    ReloadMeaning(s.daemon, Remove(s.registry, idOrName));
  }

  /** After an enrollment and a reload, the new server is active beside the others, with a task for
      its entry unless it had one already. */
  lemma EnrolledIsConnected(s: System, entry: ServerEntry)
    requires s.running && TasksMatch(s.daemon)
    ensures var s' := Next(Next(s, Enroll(entry)), ReloadStep(true)); var k := entry.endpointId;
      && s'.daemon.active.Keys == Ids(s.registry) + {k}
      && s'.daemon.active[k] in s'.daemon.live
      && (k !in s.daemon.active ==> s'.daemon.live[s'.daemon.active[k]] == entry)
  {
    AddReplaces(s.registry, entry);
    ReloadMeaning(s.daemon, Add(s.registry, entry));
  }

  /** Stopping ends every task and starts nothing; nothing starts later. */
  lemma StopEndsAll(s: System, later: Step)
    requires s.running && TasksMatch(s.daemon)
    ensures var s' := Next(s, Stop);
      !s'.running && s'.daemon.live == map[] && s'.registry == s.registry
      && !Next(s', later).running && Next(s', later).daemon == s'.daemon
  {
    ShutDownLeavesNone(s.daemon);
  }

  /** A registry that cannot be read changes nothing. */
  lemma UnreadableIsIgnored(s: System)
    ensures Next(s, ReloadStep(false)) == s
  {
  }

  /** From a registry without duplicates, each id starts with a task for its entry. */
  lemma InitialLoadServes(servers: seq<ServerEntry>)
    requires UniqueIds(servers)
    ensures var d := AllSpawned(EMPTY, servers);
      && d.active.Keys == Ids(servers)
      && forall k :: k in d.active ==> d.active[k] in d.live && Some(d.live[d.active[k]]) == FindById(servers, k)
  {
    AllAreMissing(EMPTY, servers);
    MissingSpawnedCovers(EMPTY, servers);
  }

  /** With distinct ids none of which is active, loading spawns what a reload would. */
  lemma {:induction false} AllAreMissing(d: Daemon, servers: seq<ServerEntry>)
    requires UniqueIds(servers) && forall i :: 0 <= i < |servers| ==> servers[i].endpointId !in d.active
    ensures AllSpawned(d, servers) == MissingSpawned(d, servers)
    decreases |servers|
  {
    if servers != [] {
      var d1, tail := Spawned(d, servers[0]), servers[1..];
      forall i | 0 <= i < |tail|
        ensures tail[i].endpointId !in d1.active
      {
        assert tail[i] == servers[i + 1];
      }
      AllAreMissing(d1, tail);
    }
  }

  lemma DropOne(d: Daemon, ids: set<string>, id: string)
    requires id in d.active && id !in ids
    ensures var e := DepartedDropped(d, ids + {id});
      DepartedDropped(d, ids) == e.(active := e.active - {id}, live := e.live - {d.active[id]})
  {
    assert Departed(d, ids) == Departed(d, ids + {id}) + {d.active[id]};
  }

  // ---------------------------------------------------------------------------
  // The daemon as an object
  // ---------------------------------------------------------------------------

  class Connections {
    var active: map<string, nat>
    var live: map<nat, ServerEntry>
    var next: nat

    constructor ()
      ensures State() == EMPTY
    {
      active, live, next := map[], map[], 0;
    }

    ghost function State(): Daemon
      reads this
    {
      Daemon(active, live, next)
    }

    method Spawn(server: ServerEntry) returns (handle: nat)
      modifies this`live, this`next
      ensures handle == old(next) && next == old(next) + 1
      ensures live == old(live)[handle := server]
    {
      handle := next;
      live := live[handle := server];
      next := next + 1;
    }

    method Abort(handle: nat)
      modifies this`live
      ensures live == old(live) - {handle}
    {
      live := live - {handle};
    }

    method InitialLoad(servers: seq<ServerEntry>)
      modifies this
      ensures State() == AllSpawned(old(State()), servers)
    {
      for i := 0 to |servers|
        invariant AllSpawned(old(State()), servers) == AllSpawned(State(), servers[i..])
      {
        var handle := Spawn(servers[i]);
        active := active[servers[i].endpointId := handle];
        assert servers[i..][1..] == servers[i + 1..];
      }
    }

    /** Drops the tasks whose server is gone. */
    method DropDeparted(newIds: set<string>)
      modifies this`active, this`live
      ensures State() == DepartedDropped(old(State()), newIds)
    {
      ghost var d := State();
      var toRemove := set id | id in active && id !in newIds;
      assert State() == DepartedDropped(d, newIds + toRemove);
      while toRemove != {}
        invariant toRemove <= active.Keys
        invariant forall id :: id in toRemove ==> id in d.active && id !in newIds
        invariant State() == DepartedDropped(d, newIds + toRemove)
        decreases toRemove
      {
        var id :| id in toRemove;
        DropOne(d, newIds + (toRemove - {id}), id);
        assert newIds + (toRemove - {id}) + {id} == newIds + toRemove;
        var handle := active[id];
        active := active - {id};
        Abort(handle);
        toRemove := toRemove - {id};
      }
      assert newIds + toRemove == newIds;
    }

    /** None is a registry file that cannot be read: nothing changes. */
    method ReloadServers(loaded: Option<seq<ServerEntry>>) returns (ok: bool)
      modifies this
      ensures ok == loaded.Some?
      ensures State() == if ok then Reloaded(old(State()), loaded.value) else old(State())
    {
      if loaded.None? {
        return false;
      }
      var servers := loaded.value;
      var newIds := {};
      for i := 0 to |servers|
        invariant newIds == Ids(servers[..i])
        invariant State() == old(State())
      {
        newIds := newIds + {servers[i].endpointId};
        assert servers[..i + 1] == servers[..i] + [servers[i]];
      }
      assert servers[..|servers|] == servers;

      DropDeparted(newIds);
      ghost var dropped := State();
      for i := 0 to |servers|
        invariant MissingSpawned(dropped, servers) == MissingSpawned(State(), servers[i..])
      {
        if servers[i].endpointId !in active {
          var handle := Spawn(servers[i]);
          active := active[servers[i].endpointId := handle];
        }
        assert servers[i..][1..] == servers[i + 1..];
      }
      return true;
    }

    /** Aborts every task in the map. */
    method Stop()
      modifies this`live
      ensures State() == ShutDown(old(State()))
    {
      var handles := active.Values;
      while handles != {}
        invariant handles <= active.Values
        invariant live == old(live) - (active.Values - handles)
        decreases handles
      {
        var h :| h in handles;
        Abort(h);
        handles := handles - {h};
      }
      assert active.Values - handles == active.Values;
    }
  }
}
