/** The two registries (enrolled clients on the agent, enrolled servers on a device) and
    pending enrollment tokens. Saving to disk is a flag: whether it succeeded. */
module Peers {
  import opened Protocol
  import opened Wrappers
  import Bytes

  /** What the registries share; the details differ. */
  datatype Peer<+D> = Peer(endpointId: string, name: string, details: D)

  datatype ClientDetails = ClientDetails(enrolledAt: int, lastSeen: Option<int>, capabilities: seq<string>)
  type ClientEntry = Peer<ClientDetails>

  datatype ServerDetails = ServerDetails(addrs: seq<string>, relayUrl: Option<string>, enrolledAt: int)
  type ServerEntry = Peer<ServerDetails>

  // ---------------------------------------------------------------------------
  // Registry contents
  // ---------------------------------------------------------------------------

  /** `Vec::retain`: the elements with property p, in order. */
  function Retain<T(!new)>(s: seq<T>, p: T -> bool): (r: seq<T>)
    ensures forall x :: x in r <==> x in s && p(x)
    ensures |r| <= |s|
  {
    if s == [] then [] else (if p(s[0]) then [s[0]] else []) + Retain(s[1..], p)
  }

  function Add<D(!new)>(peers: seq<Peer<D>>, entry: Peer<D>): seq<Peer<D>> {
    Retain(peers, (c: Peer<D>) => c.endpointId != entry.endpointId) + [entry]
  }

  predicate Matches<D(!new)>(c: Peer<D>, idOrName: string) {
    c.endpointId == idOrName || c.name == idOrName
  }

  function Remove<D(!new)>(peers: seq<Peer<D>>, idOrName: string): seq<Peer<D>> {
    Retain(peers, (c: Peer<D>) => !Matches(c, idOrName))
  }

  function FindById<D(!new)>(peers: seq<Peer<D>>, endpointId: string): Option<Peer<D>> {
    if peers == [] then None
    else if peers[0].endpointId == endpointId then Some(peers[0])
    else FindById(peers[1..], endpointId)
  }

  function Touch(peers: seq<ClientEntry>, endpointId: string, capabilities: seq<string>, now: int): seq<ClientEntry> {
    if peers == [] then []
    else if peers[0].endpointId == endpointId then
      [peers[0].(details := peers[0].details.(lastSeen := Some(now), capabilities := capabilities))] + peers[1..]
    else [peers[0]] + Touch(peers[1..], endpointId, capabilities, now)
  }

  function Refreshed(details: ClientDetails, capabilities: seq<string>, now: int): ClientDetails {
    ClientDetails(details.enrolledAt, Some(now), capabilities)
  }

  ghost function Ids<D(!new)>(peers: seq<Peer<D>>): set<string> {
    set c | c in peers :: c.endpointId
  }

  ghost predicate UniqueIds<D(!new)>(peers: seq<Peer<D>>) {
    forall i, j :: 0 <= i < j < |peers| ==> peers[i].endpointId != peers[j].endpointId
  }

  // ---------------------------------------------------------------------------
  // What the operations promise
  // ---------------------------------------------------------------------------

  /** What is kept stays in order: one element at a time, from the front. */
  lemma {:induction false} RetainAppend<T(!new)>(s: seq<T>, x: T, p: T -> bool)
    ensures Retain(s + [x], p) == Retain(s, p) + (if p(x) then [x] else [])
  {
    if s == [] {
      assert Retain([x], p) == (if p(x) then [x] else []) + Retain([], p);
    } else {
      var head, last := if p(s[0]) then [s[0]] else [], if p(x) then [x] else [];
      assert (s + [x])[1..] == s[1..] + [x];
      RetainAppend(s[1..], x, p);
      Bytes.ConcatAssociative(head, Retain(s[1..], p), last);
    }
  }

  lemma {:induction false} FindByIdMeaning<D(!new)>(peers: seq<Peer<D>>, endpointId: string)
    ensures FindById(peers, endpointId).Some? <==> endpointId in Ids(peers)
    ensures FindById(peers, endpointId).Some? ==>
      FindById(peers, endpointId).value in peers && FindById(peers, endpointId).value.endpointId == endpointId
  {
    if peers == [] {
    } else {
      FindByIdMeaning(peers[1..], endpointId);
      assert Ids(peers) == {peers[0].endpointId} + Ids(peers[1..]);
    }
  }

  lemma {:induction false} RetainKeepsUnique<D(!new)>(peers: seq<Peer<D>>, p: Peer<D> -> bool)
    requires UniqueIds(peers)
    ensures UniqueIds(Retain(peers, p))
  {
    if peers != [] {
      var tail := Retain(peers[1..], p);
      RetainKeepsUnique(peers[1..], p);
      forall i | 0 <= i < |tail|
        ensures tail[i].endpointId != peers[0].endpointId
      {
        assert tail[i] in peers[1..];
      }
    }
  }

  /** Adding leaves exactly one entry for the id, the new one, and the others untouched. */
  lemma AddReplaces<D(!new)>(peers: seq<Peer<D>>, entry: Peer<D>)
    ensures Ids(Add(peers, entry)) == Ids(peers) + {entry.endpointId}
    ensures forall c :: c in Add(peers, entry) <==> c == entry || (c in peers && c.endpointId != entry.endpointId)
    ensures FindById(Add(peers, entry), entry.endpointId) == Some(entry)
    ensures |Add(peers, entry)| > 0 && Add(peers, entry)[|Add(peers, entry)| - 1] == entry
    ensures UniqueIds(peers) ==> UniqueIds(Add(peers, entry))
  {
    var others := Retain(peers, (c: Peer<D>) => c.endpointId != entry.endpointId);
    assert Add(peers, entry)[|others|] == entry;
    forall c | c in peers
      ensures c.endpointId in Ids(Add(peers, entry))
    {
      if c.endpointId != entry.endpointId {
        assert c in others;
      }
    }
    FindByIdMeaning(Add(peers, entry), entry.endpointId);
    if UniqueIds(peers) {
      AddKeepsUnique(peers, entry);
    }
  }

  lemma AddKeepsUnique<D(!new)>(peers: seq<Peer<D>>, entry: Peer<D>)
    requires UniqueIds(peers)
    ensures UniqueIds(Add(peers, entry))
  {
    var others := Retain(peers, (c: Peer<D>) => c.endpointId != entry.endpointId);
    RetainKeepsUnique(peers, (c: Peer<D>) => c.endpointId != entry.endpointId);
    forall i | 0 <= i < |others|
      ensures others[i].endpointId != entry.endpointId
    {
      assert others[i] in others;
    }
  }

  /** Removing takes out every match by id or by name and nothing else. */
  lemma RemoveTakesMatches<D(!new)>(peers: seq<Peer<D>>, idOrName: string)
    ensures forall c :: c in Remove(peers, idOrName) <==> c in peers && c.endpointId != idOrName && c.name != idOrName
    ensures UniqueIds(peers) ==> UniqueIds(Remove(peers, idOrName))
    ensures |Remove(peers, idOrName)| < |peers| <==> exists c :: c in peers && Matches(c, idOrName)
  {
    if UniqueIds(peers) {
      RetainKeepsUnique(peers, (c: Peer<D>) => !Matches(c, idOrName));
    }
    RetainShrinks(peers, (c: Peer<D>) => !Matches(c, idOrName));
  }

  lemma {:induction false} RetainShrinks<T(!new)>(s: seq<T>, p: T -> bool)
    ensures |Retain(s, p)| < |s| <==> exists x :: x in s && !p(x)
  {
    if s != [] {
      RetainShrinks(s[1..], p);
      if p(s[0]) {
        assert forall x :: x in s && !p(x) ==> x in s[1..];
      }
    }
  }

  /** Refreshing records the capabilities and the time in the first entry with the id, keeps
      the rest of that entry, and changes no other. */
  lemma {:induction false} TouchRefreshesFirst(peers: seq<ClientEntry>, endpointId: string, capabilities: seq<string>,
                                               now: int)
    returns (k: nat)
    ensures k <= |peers| && (forall i :: 0 <= i < k ==> peers[i].endpointId != endpointId)
    ensures k < |peers| ==>
      && FindById(peers, endpointId) == Some(peers[k]) && peers[k].endpointId == endpointId
      && Touch(peers, endpointId, capabilities, now)
         == peers[k := Peer(endpointId, peers[k].name, Refreshed(peers[k].details, capabilities, now))]
    ensures k == |peers| ==> FindById(peers, endpointId) == None && Touch(peers, endpointId, capabilities, now) == peers
  {
    k := 0;
    if peers != [] && peers[0].endpointId != endpointId {
      var j := TouchRefreshesFirst(peers[1..], endpointId, capabilities, now);
      k := j + 1;
      assert peers == [peers[0]] + peers[1..];
    }
  }

  // ---------------------------------------------------------------------------
  // Registries as objects
  // ---------------------------------------------------------------------------

  /** A registry in memory. `saved` says whether writing the file succeeded; the memory is
      changed either way. */
  class Registry<D(!new)> {
    var peers: seq<Peer<D>>

    constructor (peers: seq<Peer<D>>)
      ensures this.peers == peers
    {
      this.peers := peers;
    }

    method AddEntry(entry: Peer<D>, saved: bool) returns (ok: bool)
      modifies this
      ensures peers == Add(old(peers), entry) && ok == saved
    {
      peers := Retain(peers, (c: Peer<D>) => c.endpointId != entry.endpointId);
      peers := peers + [entry];
      ok := saved;
    }

    /** Err when saving failed; saving is tried only when something was removed. */
    method RemoveEntry(idOrName: string, saved: bool) returns (r: Result<bool, ()>)
      modifies this
      ensures peers == Remove(old(peers), idOrName)
      ensures var removed := exists c :: c in old(peers) && Matches(c, idOrName);
        r == if removed && !saved then Err(()) else Ok(removed)
    {
      RemoveTakesMatches(peers, idOrName);
      var before := |peers|;
      peers := Retain(peers, (c: Peer<D>) => !Matches(c, idOrName));
      var removed := |peers| < before;
      if removed && !saved {
        return Err(());
      }
      return Ok(removed);
    }

    method Find(endpointId: string) returns (r: Option<Peer<D>>)
      ensures r == FindById(peers, endpointId)
    {
      for i := 0 to |peers|
        invariant FindById(peers, endpointId) == FindById(peers[i..], endpointId)
      {
        if peers[i].endpointId == endpointId {
          return Some(peers[i]);
        }
      }
      return None;
    }
  }

  /** Refreshes the first entry with the id, if there is one. */
  method TouchEntry(registry: Registry<ClientDetails>, endpointId: string, capabilities: seq<string>, now: int)
    modifies registry
    ensures registry.peers == Touch(old(registry.peers), endpointId, capabilities, now)
  {
    var peers := registry.peers;
    ghost var first := TouchRefreshesFirst(peers, endpointId, capabilities, now);
    for i := 0 to |peers|
      invariant registry.peers == peers
      invariant forall j :: 0 <= j < i ==> peers[j].endpointId != endpointId
    {
      if peers[i].endpointId == endpointId {
        var details := peers[i].details.(lastSeen := Some(now), capabilities := capabilities);
        registry.peers := peers[i := peers[i].(details := details)];
        return;
      }
    }
  }

  // ---------------------------------------------------------------------------
  // Enrollment tokens
  // ---------------------------------------------------------------------------

  /** Times are nanoseconds since the start of 1970. */
  datatype PendingToken = PendingToken(token: string, createdAt: int, expiresAt: int)
  {
    predicate IsExpired(now: int) {
      now > expiresAt
    }
  }

  const SECOND := 1_000_000_000

  /** The dates a UTC date-time can hold: the years -262143 to 262142. */
  const FIRST_DATE := -8_334_601_228_800 * SECOND
  const LAST_DATE := 8_210_266_876_800 * SECOND - 1

  /** The longest duration in whole seconds: the number of milliseconds must fit 64 bits. */
  const LONGEST_DURATION := 9_223_372_036_854_775

  predicate IsDate(time: int) {
    FIRST_DATE <= time <= LAST_DATE
  }

  /** `ttl as i64`. */
  function AsI64(ttl: u64): int {
    if ttl < 0x8000_0000_0000_0000 then ttl else ttl - 0x1_0000_0000_0000_0000
  }

  /** None when the duration or the expiry is out of range: the date library panics. */
  function NewToken(token: string, now: int, ttl: u64): Option<PendingToken> {
    var seconds := AsI64(ttl);
    if !(-LONGEST_DURATION <= seconds <= LONGEST_DURATION) then None
    else
      var expiresAt := now + seconds * SECOND;
      if IsDate(expiresAt) then Some(PendingToken(token, now, expiresAt)) else None
  }

  /** There is a token exactly when the time to live ends within the dates, or when it counts
      back from 2^64 by no more than the time since the first date. */
  lemma TokenIssuedIff(token: string, now: int, ttl: u64)
    requires IsDate(now)
    ensures NewToken(token, now, ttl).Some?
       <==> ttl * SECOND <= LAST_DATE - now || (0x1_0000_0000_0000_0000 - ttl) * SECOND <= now - FIRST_DATE
  {
    if ttl * SECOND <= LAST_DATE - now {
      assert ttl <= LONGEST_DURATION;
    }
    if (0x1_0000_0000_0000_0000 - ttl) * SECOND <= now - FIRST_DATE {
      assert 0x1_0000_0000_0000_0000 - ttl <= LONGEST_DURATION;
    }
  }

  /** A token lives for exactly its time to live, unless that was taken for a negative number:
      then the token is born expired. */
  lemma TokenLife(token: string, now: int, ttl: u64, later: int)
    requires now <= later
    requires NewToken(token, now, ttl).Some?
    ensures NewToken(token, now, ttl).value.IsExpired(later)
       <==> later - now > ttl * 1_000_000_000 || ttl >= 0x8000_0000_0000_0000
  {
  }

  /** A ticket can be used at all exactly when its time to live ends within the dates. */
  lemma TokenUsableIff(token: string, now: int, ttl: u64)
    requires IsDate(now)
    ensures NewToken(token, now, ttl).Some? && !NewToken(token, now, ttl).value.IsExpired(now)
       <==> ttl * SECOND <= LAST_DATE - now
  {
    TokenIssuedIff(token, now, ttl);
    if NewToken(token, now, ttl).Some? {
      TokenLife(token, now, ttl, now);
    }
  }

  /** No clock reading gives a token for 2^62 or 2^63 seconds; 2^64 - 1 seconds count as one
      second ago. */
  lemma HugeTimesToLive(token: string, now: int)
    requires IsDate(now)
    ensures NewToken(token, now, 0x4000_0000_0000_0000) == None
    ensures NewToken(token, now, 0x8000_0000_0000_0000) == None
    ensures NewToken(token, now, 0xFFFF_FFFF_FFFF_FFFF)
         == if now - SECOND >= FIRST_DATE then Some(PendingToken(token, now, now - SECOND)) else None
  {
  }
}
