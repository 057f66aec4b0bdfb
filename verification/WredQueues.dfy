/** The two walks that collect the unicast queues that a WRED profile applies to: over the queues of
    one port, and over the profiles of one buffer pool. */
module WredQueues {
  import opened SaiTypes
  import opened Collections

  datatype PoolType = Ingress | Egress | BothTypes

  datatype Queue = Queue(isUnicast: bool, portId: Oid, profileId: Oid)

  /** A profile with the list of the queues set with it. */
  datatype Profile = Profile(poolId: Oid, queues: seq<Oid>)

  /** A pool with the list of its profiles. */
  datatype Pool = Pool(poolType: PoolType, profiles: seq<Oid>)

  /** The QoS tables. A list names its members; `ports` gives each port node its queue list,
      `portPools` the port and the pool of a port pool, `isLogical` tells front-end ports. */
  datatype Qos = Qos(
    queues: map<Oid, Queue>,
    profiles: map<Oid, Profile>,
    pools: map<Oid, Pool>,
    ports: map<Oid, seq<Oid>>,
    portPools: map<Oid, (Oid, Oid)>,
    isLogical: Oid -> bool)

  predicate QueuesLive(s: Qos, list: seq<Oid>) {
    forall q | q in list :: q in s.queues
  }

  predicate ProfilesLive(s: Qos, list: seq<Oid>) {
    forall p | p in list :: p in s.profiles
  }

  /** Every list names live nodes. */
  predicate Live(s: Qos) {
    && (forall port | port in s.ports :: QueuesLive(s, s.ports[port]))
    && (forall p | p in s.profiles :: QueuesLive(s, s.profiles[p].queues))
    && (forall b | b in s.pools :: ProfilesLive(s, s.pools[b].profiles))
  }

  // ---------------------------------------------------------------- what the walks select

  /** What a walk looks for: the queues of a pool, or those of front-end ports. */
  datatype Test = PoolUsers(pool: Oid) | FrontEnd

  predicate Keeps(s: Qos, t: Test, q: Oid) {
    && q in s.queues && s.queues[q].isUnicast
    && match t
       case PoolUsers(pool) =>
         s.queues[q].profileId in s.profiles && s.profiles[s.queues[q].profileId].poolId == pool
       case FrontEnd => s.isLogical(s.queues[q].portId)
  }

  /** The members of a list that a test keeps, in order. */
  function Select(s: Qos, list: seq<Oid>, t: Test): seq<Oid> {
    if list == [] then []
    else Select(s, list[..|list| - 1], t) + if Keeps(s, t, list[|list| - 1]) then [list[|list| - 1]] else []
  }

  /** The queues of a list of profiles, one profile after the other. */
  function Flatten(s: Qos, profiles: seq<Oid>): seq<Oid>
    requires ProfilesLive(s, profiles)
  {
    if profiles == [] then []
    else Flatten(s, profiles[..|profiles| - 1]) + s.profiles[profiles[|profiles| - 1]].queues
  }

  /** What a walk over profiles selects. */
  function Whole(s: Qos, profiles: seq<Oid>): seq<Oid>
    requires ProfilesLive(s, profiles)
  {
    Select(s, Flatten(s, profiles), FrontEnd)
  }

  function PortSelection(s: Qos, port: Oid, pool: Oid): seq<Oid>
    requires port in s.ports
  {
    Select(s, s.ports[port], PoolUsers(pool))
  }

  function PoolSelection(s: Qos, pool: Oid): seq<Oid>
    requires Live(s) && pool in s.pools
  {
    Whole(s, s.pools[pool].profiles)
  }

  function Min(a: nat, b: nat): (m: nat)
    ensures m <= a && m <= b && (m == a || m == b)
  {
    if a < b then a else b
  }

  lemma {:induction false} SelectAppend(s: Qos, a: seq<Oid>, b: seq<Oid>, t: Test)
    ensures Select(s, a + b, t) == Select(s, a, t) + Select(s, b, t)
  {
    if b == [] {
      assert a + b == a;
    } else {
      SelectAppend(s, a, b[..|b| - 1], t);
      assert (a + b)[..|a + b| - 1] == a + b[..|b| - 1];
    }
  }

  lemma SelectStep(s: Qos, list: seq<Oid>, j: nat, t: Test)
    requires j < |list|
    ensures Select(s, list[..j + 1], t) == Select(s, list[..j], t) + if Keeps(s, t, list[j]) then [list[j]] else []
  {
    assert list[..j + 1][..j] == list[..j];
  }

  lemma SelectPrefix(s: Qos, list: seq<Oid>, i: nat, t: Test)
    requires i <= |list|
    ensures Select(s, list[..i], t) <= Select(s, list, t)
  {
    assert list == list[..i] + list[i..];
    SelectAppend(s, list[..i], list[i..], t);
  }

  lemma {:induction false} FlattenAppend(s: Qos, a: seq<Oid>, b: seq<Oid>)
    requires ProfilesLive(s, a + b)
    ensures ProfilesLive(s, a) && ProfilesLive(s, b)
    ensures Flatten(s, a + b) == Flatten(s, a) + Flatten(s, b)
  {
    assert forall p | p in a :: p in a + b;
    assert forall p | p in b :: p in a + b;
    if b == [] {
      assert a + b == a;
    } else {
      assert (a + b)[..|a + b| - 1] == a + b[..|b| - 1];
      FlattenAppend(s, a, b[..|b| - 1]);
    }
  }

  // ---------------------------------------------------------------- the walks

  /** The buffer is as it was before, but for the first `n` members of a selection that it holds from
      position `start` on. */
  predicate Holds(now: seq<Oid>, before: seq<Oid>, start: nat, selected: seq<Oid>, n: nat) {
    && |now| == |before| && n <= |selected| && start + n <= |before|
    && forall k | 0 <= k < |now| :: now[k] == if start <= k < start + n then selected[k - start] else before[k]
  }

  lemma HoldsOneMore(now: seq<Oid>, before: seq<Oid>, start: nat, selected: seq<Oid>, q: Oid)
    requires Holds(now, before, start, selected, |selected|) && start + |selected| < |before|
    ensures Holds(now[start + |selected| := q], before, start, selected + [q], |selected| + 1)
  {
  }

  /** What one walk writes and what the next one writes after it. */
  lemma HoldsMore(now: seq<Oid>, mid: seq<Oid>, before: seq<Oid>, done: seq<Oid>, part: seq<Oid>, n: nat)
    requires Holds(mid, before, 0, done, |done|) && Holds(now, mid, |done|, part, n)
    ensures Holds(now, before, 0, done + part, |done| + n)
  {
  }

  lemma HoldsPrefix(now: seq<Oid>, before: seq<Oid>, start: nat, selected: seq<Oid>, all: seq<Oid>, n: nat)
    requires Holds(now, before, start, selected, n) && selected <= all
    ensures Holds(now, before, start, all, n)
  {
  }

  /** `buffer` is the caller's list, `count` its size; it may be zero when nothing is selected. The
      count that is reported is the number of queues written, which are the first ones selected. */
  method PortPoolGetWredQueueIds(s: Qos, portPool: Oid, buffer: array<Oid>, count: nat)
    returns (rc: Status, newCount: nat)
    requires Live(s) && count <= buffer.Length
    requires count > 0 || (portPool in s.portPools && s.portPools[portPool].0 in s.ports ==>
                             PortSelection(s, s.portPools[portPool].0, s.portPools[portPool].1) == [])
    modifies buffer
    ensures rc == if portPool in s.portPools && s.portPools[portPool].0 in s.ports then Success else InvalidObjectId
    ensures rc == Success ==>
              var selected := PortSelection(s, s.portPools[portPool].0, s.portPools[portPool].1);
              newCount == Min(count, |selected|) && Holds(buffer[..], old(buffer[..]), 0, selected, newCount)
    ensures rc != Success ==> newCount == count && buffer[..] == old(buffer[..])
  {
    newCount := count;
    if portPool !in s.portPools {
      return InvalidObjectId, newCount;
    }
    var (port, pool) := s.portPools[portPool];
    var num := 0;
    if port in s.ports {
      var list := s.ports[port];
      ghost var before, written := buffer[..], [];
      for i := 0 to |list|
        invariant written == Select(s, list[..i], PoolUsers(pool))
        invariant num == |written| <= count && (count > 0 ==> num < count)
        invariant Holds(buffer[..], before, 0, written, num)
      {
        var q := list[i];
        SelectStep(s, list, i, PoolUsers(pool));
        SelectPrefix(s, list, i + 1, PoolUsers(pool));
        if s.queues[q].isUnicast {
          var profile := s.queues[q].profileId;
          if profile in s.profiles && s.profiles[profile].poolId == pool {
            HoldsOneMore(buffer[..], before, 0, written, q);
            buffer[num] := q;
            num := num + 1;
            written := written + [q];
            if num == count {
              HoldsPrefix(buffer[..], before, 0, written, Select(s, list, PoolUsers(pool)), num);
              return Success, newCount;
            }
          }
        }
      }
      assert list[..|list|] == list;
    } else {
      return InvalidObjectId, newCount;
    }
    newCount := num;
    return Success, newCount;
  }

  /** The inner loop: write the selected queues of one profile from position `start` on, and stop
      as soon as the buffer is full. */
  method WalkProfile(s: Qos, list: seq<Oid>, buffer: array<Oid>, count: nat, start: nat)
    returns (num: nat, full: bool)
    requires QueuesLive(s, list) && start <= count <= buffer.Length
    requires start < count || Select(s, list, FrontEnd) == []
    modifies buffer
    ensures start <= num == Min(count, start + |Select(s, list, FrontEnd)|)
    ensures full <==> start < count && num == count
    ensures Holds(buffer[..], old(buffer[..]), start, Select(s, list, FrontEnd), num - start)
  {
    num, full := start, false;
    ghost var before, written := buffer[..], [];
    for j := 0 to |list|
      invariant written == Select(s, list[..j], FrontEnd)
      invariant num == start + |written| <= count && (start < count ==> num < count)
      invariant Holds(buffer[..], before, start, written, |written|)
    {
      var q := list[j];
      SelectStep(s, list, j, FrontEnd);
      SelectPrefix(s, list, j + 1, FrontEnd);
      if s.queues[q].isUnicast && s.isLogical(s.queues[q].portId) {
        HoldsOneMore(buffer[..], before, start, written, q);
        buffer[num] := q;
        num := num + 1;
        written := written + [q];
        if num == count {
          HoldsPrefix(buffer[..], before, start, written, Select(s, list, FrontEnd), num - start);
          return num, true;
        }
      }
    }
    assert list[..|list|] == list;
  }

  /** What the first `i` profiles contribute. */
  function Selected(s: Qos, profiles: seq<Oid>, i: nat): seq<Oid>
    requires i <= |profiles| && ProfilesLive(s, profiles)
  {
    Select(s, Flatten(s, profiles[..i]), FrontEnd)
  }

  lemma SelectedStep(s: Qos, profiles: seq<Oid>, i: nat)
    requires i < |profiles| && ProfilesLive(s, profiles)
    ensures Selected(s, profiles, i + 1)
         == Selected(s, profiles, i) + Select(s, s.profiles[profiles[i]].queues, FrontEnd)
  {
    assert profiles[..i + 1][..i] == profiles[..i];
    SelectAppend(s, Flatten(s, profiles[..i]), s.profiles[profiles[i]].queues, FrontEnd);
  }

  /** What has been selected part of the way is the beginning of the whole selection. */
  lemma RestOfWalk(s: Qos, profiles: seq<Oid>, i: nat)
    requires i <= |profiles| && ProfilesLive(s, profiles)
    ensures Selected(s, profiles, i) <= Select(s, Flatten(s, profiles), FrontEnd)
  {
    assert profiles == profiles[..i] + profiles[i..];
    FlattenAppend(s, profiles[..i], profiles[i..]);
    SelectAppend(s, Flatten(s, profiles[..i]), Flatten(s, profiles[i..]), FrontEnd);
  }

  /** After `i` profiles the buffer holds all that they contribute, and is not full. */
  predicate Walked(s: Qos, profiles: seq<Oid>, i: nat, now: seq<Oid>, before: seq<Oid>, n: nat, count: nat)
    requires i <= |profiles| && ProfilesLive(s, profiles)
  {
    && n == |Selected(s, profiles, i)| <= count && (count > 0 ==> n < count)
    && Holds(now, before, 0, Selected(s, profiles, i), n)
  }

  /** Once all profiles are walked, the buffer holds the whole selection. */
  lemma WalkedAll(s: Qos, profiles: seq<Oid>, now: seq<Oid>, before: seq<Oid>, n: nat, count: nat)
    requires ProfilesLive(s, profiles)
    requires Walked(s, profiles, |profiles|, now, before, n, count)
    ensures n == Min(count, |Whole(s, profiles)|) && Holds(now, before, 0, Whole(s, profiles), n)
  {
    assert profiles[..|profiles|] == profiles;
  }

  lemma RoomForPart(s: Qos, profiles: seq<Oid>, i: nat, now: seq<Oid>, before: seq<Oid>, n: nat, count: nat)
    requires i < |profiles| && ProfilesLive(s, profiles)
    requires Walked(s, profiles, i, now, before, n, count) && (count > 0 || Whole(s, profiles) == [])
    ensures n < count || Select(s, s.profiles[profiles[i]].queues, FrontEnd) == []
  {
    SelectedStep(s, profiles, i);
    RestOfWalk(s, profiles, i + 1);
  }

  /** One profile more: the buffer is full with the beginning of the whole selection, or the walk
      goes on. */
  lemma WalkedPart(s: Qos, profiles: seq<Oid>, i: nat, now: seq<Oid>, mid: seq<Oid>, before: seq<Oid>,
                   start: nat, n: nat, count: nat)
    requires i < |profiles| && ProfilesLive(s, profiles)
    requires Walked(s, profiles, i, mid, before, start, count) && (count > 0 || Whole(s, profiles) == [])
    requires var part := Select(s, s.profiles[profiles[i]].queues, FrontEnd);
             start <= n == Min(count, start + |part|) && Holds(now, mid, start, part, n - start)
    ensures if start < count && n == count then
              count <= |Whole(s, profiles)| && Holds(now, before, 0, Whole(s, profiles), count)
            else Walked(s, profiles, i + 1, now, before, n, count)
  {
    var part, done := Select(s, s.profiles[profiles[i]].queues, FrontEnd), Selected(s, profiles, i);
    SelectedStep(s, profiles, i);
    RestOfWalk(s, profiles, i + 1);
    HoldsMore(now, mid, before, done, part, n - start);
    HoldsPrefix(now, before, 0, done + part, Whole(s, profiles), n);
  }

  method BufferPoolGetWredQueueIds(s: Qos, pool: Oid, buffer: array<Oid>, count: nat)
    returns (rc: Status, newCount: nat)
    requires Live(s) && count <= buffer.Length
    requires count > 0 || (pool in s.pools ==> PoolSelection(s, pool) == [])
    modifies buffer
    ensures rc == if pool in s.pools then Success else InvalidObjectId
    ensures rc == Success ==>
              var selected := PoolSelection(s, pool);
              newCount == Min(count, |selected|) && Holds(buffer[..], old(buffer[..]), 0, selected, newCount)
    ensures rc != Success ==> newCount == count && buffer[..] == old(buffer[..])
  {
    newCount := count;
    if pool !in s.pools {
      return InvalidObjectId, newCount;
    }
    var num := 0;
    ghost var before := buffer[..];
    var profiles := s.pools[pool].profiles;
    for i := 0 to |profiles|
      invariant Walked(s, profiles, i, buffer[..], before, num, count)
    {
      ghost var mid := buffer[..];
      RoomForPart(s, profiles, i, mid, before, num, count);
      var start, full := num, false;
      num, full := WalkProfile(s, s.profiles[profiles[i]].queues, buffer, count, start);
      WalkedPart(s, profiles, i, buffer[..], mid, before, start, num, count);
      if full {
        return Success, newCount;
      }
    }
    WalkedAll(s, profiles, buffer[..], before, num, count);
    newCount := num;
    return Success, newCount;
  }

  /** The first queue of an egress pool is the head of the unfiltered walk. */
  method BufferPoolGetFirstQueueId(s: Qos, pool: Oid) returns (rc: Status, queue: Oid)
    requires Live(s)
    ensures pool !in s.pools ==> rc == ItemNotFound
    ensures pool in s.pools && s.pools[pool].poolType != Egress ==> rc == InvalidParameter
    ensures pool in s.pools && s.pools[pool].poolType == Egress ==>
              var all := Flatten(s, s.pools[pool].profiles);
              rc == (if all == [] then Failure else Success) && (all != [] ==> queue == all[0])
  {
    queue := NULL_OID;
    if pool !in s.pools {
      return ItemNotFound, queue;
    }
    if s.pools[pool].poolType != Egress {
      return InvalidParameter, queue;
    }
    var profiles := s.pools[pool].profiles;
    for i := 0 to |profiles|
      invariant Flatten(s, profiles[..i]) == []
    {
      var list := s.profiles[profiles[i]].queues;
      assert profiles[..i + 1][..i] == profiles[..i];
      if list != [] {
        assert profiles == profiles[..i + 1] + profiles[i + 1..];
        FlattenAppend(s, profiles[..i + 1], profiles[i + 1..]);
        return Success, list[0];
      }
    }
    assert profiles[..|profiles|] == profiles;
    return Failure, queue;
  }

  // ---------------------------------------------------------------- the two walks agree

  /** The queue list of each port is exactly its queues, each once. */
  ghost predicate PortLinks(s: Qos) {
    && (forall port | port in s.ports :: Distinct(s.ports[port]))
    && (forall port, q | port in s.ports ::
          q in s.ports[port] <==> q in s.queues && s.queues[q].portId == port)
  }

  /** The queue list of each profile is exactly the queues set with it, each once. */
  ghost predicate ProfileLinks(s: Qos) {
    && (forall p | p in s.profiles :: Distinct(s.profiles[p].queues))
    && (forall p, q | p in s.profiles ::
          q in s.profiles[p].queues <==> q in s.queues && s.queues[q].profileId == p)
  }

  /** The profile list of each pool is exactly its profiles, each once. */
  ghost predicate PoolLinks(s: Qos) {
    && (forall b | b in s.pools :: Distinct(s.pools[b].profiles))
    && (forall b, p | b in s.pools ::
          p in s.pools[b].profiles <==> p in s.profiles && s.profiles[p].poolId == b)
  }

  ghost predicate Linked(s: Qos) {
    Live(s) && PortLinks(s) && ProfileLinks(s) && PoolLinks(s)
  }

  lemma {:induction false} SelectMember(s: Qos, list: seq<Oid>, t: Test, q: Oid)
    ensures q in Select(s, list, t) <==> q in list && Keeps(s, t, q)
  {
    if list == [] {
    } else {
      var n := |list| - 1;
      SelectMember(s, list[..n], t, q);
      assert list == list[..n] + [list[n]];
    }
  }

  lemma {:induction false} SelectKeepsDistinct(s: Qos, list: seq<Oid>, t: Test)
    requires Distinct(list)
    ensures Distinct(Select(s, list, t))
  {
    if list == [] {
    } else {
      var n := |list| - 1;
      SelectKeepsDistinct(s, list[..n], t);
      SelectMember(s, list[..n], t, list[n]);
    }
  }

  lemma {:induction false} FlattenMember(s: Qos, profiles: seq<Oid>, q: Oid)
    requires ProfileLinks(s) && ProfilesLive(s, profiles)
    ensures q in Flatten(s, profiles) <==> q in s.queues && s.queues[q].profileId in profiles
  {
    if profiles == [] {
    } else {
      var n := |profiles| - 1;
      FlattenMember(s, profiles[..n], q);
      assert profiles == profiles[..n] + [profiles[n]];
      assert profiles[n] in profiles;
      assert q in s.profiles[profiles[n]].queues <==> q in s.queues && s.queues[q].profileId == profiles[n];
    }
  }

  lemma AppendDistinct(a: seq<Oid>, b: seq<Oid>)
    requires Distinct(a) && Distinct(b) && forall i | 0 <= i < |b| :: b[i] !in a
    ensures Distinct(a + b)
  {
  }

  lemma {:induction false} FlattenDistinct(s: Qos, profiles: seq<Oid>)
    requires ProfileLinks(s) && Distinct(profiles) && ProfilesLive(s, profiles)
    ensures Distinct(Flatten(s, profiles))
  {
    if profiles == [] {
    } else {
      var n := |profiles| - 1;
      var last := profiles[n];
      FlattenDistinct(s, profiles[..n]);
      assert last in profiles && last !in profiles[..n];
      var b := s.profiles[last].queues;
      forall i | 0 <= i < |b| ensures b[i] !in Flatten(s, profiles[..n]) {
        FlattenMember(s, profiles[..n], b[i]);
        assert b[i] in b;
      }
      AppendDistinct(Flatten(s, profiles[..n]), b);
    }
  }

  /** The pool walk selects, each once, exactly the unicast queues of front-end ports whose
      profile draws on the pool. */
  lemma PoolSelectionExact(s: Qos, pool: Oid)
    requires Linked(s) && pool in s.pools
    ensures Distinct(PoolSelection(s, pool))
    ensures forall q :: q in PoolSelection(s, pool)
                   <==> q in s.queues && s.queues[q].isUnicast && s.isLogical(s.queues[q].portId)
                        && s.queues[q].profileId in s.profiles && s.profiles[s.queues[q].profileId].poolId == pool
  {
    var profiles := s.pools[pool].profiles;
    FlattenDistinct(s, profiles);
    SelectKeepsDistinct(s, Flatten(s, profiles), FrontEnd);
    forall q
      ensures q in PoolSelection(s, pool)
         <==> q in s.queues && s.queues[q].isUnicast && s.isLogical(s.queues[q].portId)
              && s.queues[q].profileId in s.profiles && s.profiles[s.queues[q].profileId].poolId == pool
    {
      SelectMember(s, Flatten(s, profiles), FrontEnd, q);
      FlattenMember(s, profiles, q);
      if q in s.queues {
        var p := s.queues[q].profileId;
        assert p in profiles <==> p in s.profiles && s.profiles[p].poolId == pool;
      }
    }
  }

  /** The port walk selects, each once, exactly the unicast queues of the port whose profile draws
      on the pool. */
  lemma PortSelectionExact(s: Qos, port: Oid, pool: Oid)
    requires Linked(s) && port in s.ports
    ensures Distinct(PortSelection(s, port, pool))
    ensures forall q :: q in PortSelection(s, port, pool)
                   <==> q in s.queues && s.queues[q].isUnicast && s.queues[q].portId == port
                        && s.queues[q].profileId in s.profiles && s.profiles[s.queues[q].profileId].poolId == pool
  {
    SelectKeepsDistinct(s, s.ports[port], PoolUsers(pool));
    forall q
      ensures q in PortSelection(s, port, pool)
         <==> q in s.queues && s.queues[q].isUnicast && s.queues[q].portId == port
              && s.queues[q].profileId in s.profiles && s.profiles[s.queues[q].profileId].poolId == pool
    {
      SelectMember(s, s.ports[port], PoolUsers(pool), q);
      assert q in s.ports[port] <==> q in s.queues && s.queues[q].portId == port;
    }
  }

  // ---------------------------------------------------------------- the order of a selection

  /** `a` stands before `b`. */
  ghost predicate Before(list: seq<Oid>, a: Oid, b: Oid) {
    exists i, j :: 0 <= i < j < |list| && list[i] == a && list[j] == b
  }

  lemma BeforeInPrefix(list: seq<Oid>, more: seq<Oid>, a: Oid, b: Oid)
    requires Before(list, a, b)
    ensures Before(list + more, a, b)
  {
    var i, j :| 0 <= i < j < |list| && list[i] == a && list[j] == b;
    assert (list + more)[i] == a && (list + more)[j] == b;
  }

  lemma BeforeAcross(list: seq<Oid>, more: seq<Oid>, a: Oid, b: Oid)
    requires a in list && b in more
    ensures Before(list + more, a, b)
  {
    var i :| 0 <= i < |list| && list[i] == a;
    var j :| 0 <= j < |more| && more[j] == b;
    assert (list + more)[i] == a && (list + more)[|list| + j] == b;
  }

  /** Of two queues that are selected, the one that comes first in the list comes first in the
      selection. */
  lemma {:induction false} SelectKeepsOrder(s: Qos, list: seq<Oid>, t: Test, i: nat, j: nat)
    requires i < j < |list| && Keeps(s, t, list[i]) && Keeps(s, t, list[j])
    ensures Before(Select(s, list, t), list[i], list[j])
  {
    var n := |list| - 1;
    if j < n {
      SelectKeepsOrder(s, list[..n], t, i, j);
      BeforeInPrefix(Select(s, list[..n], t), if Keeps(s, t, list[n]) then [list[n]] else [], list[i], list[j]);
    } else {
      SelectMember(s, list[..n], t, list[i]);
      assert list[..n][i] == list[i];
      BeforeAcross(Select(s, list[..n], t), [list[n]], list[i], list[j]);
    }
  }

  /** The port walk lists its queues in the order of the port's queue list. */
  lemma PortSelectionOrder(s: Qos, port: Oid, pool: Oid, i: nat, j: nat)
    requires Linked(s) && port in s.ports && i < j < |s.ports[port]|
    requires s.ports[port][i] in PortSelection(s, port, pool) && s.ports[port][j] in PortSelection(s, port, pool)
    ensures Before(PortSelection(s, port, pool), s.ports[port][i], s.ports[port][j])
  {
    SelectMember(s, s.ports[port], PoolUsers(pool), s.ports[port][i]);
    SelectMember(s, s.ports[port], PoolUsers(pool), s.ports[port][j]);
    SelectKeepsOrder(s, s.ports[port], PoolUsers(pool), i, j);
  }

  /** Where the queues of one profile stand in the walk over all. */
  lemma FlattenAt(s: Qos, profiles: seq<Oid>, k: nat, i: nat) returns (at: nat)
    requires ProfilesLive(s, profiles) && k < |profiles| && i < |s.profiles[profiles[k]].queues|
    ensures at == |Flatten(s, profiles[..k])| + i < |Flatten(s, profiles[..k + 1])| <= |Flatten(s, profiles)|
    ensures Flatten(s, profiles)[at] == s.profiles[profiles[k]].queues[i]
  {
    at := |Flatten(s, profiles[..k])| + i;
    assert profiles[..k + 1][..k] == profiles[..k];
    assert profiles == profiles[..k + 1] + profiles[k + 1..];
    FlattenAppend(s, profiles[..k + 1], profiles[k + 1..]);
  }

  lemma FlattenGrows(s: Qos, profiles: seq<Oid>, k: nat, l: nat)
    requires ProfilesLive(s, profiles) && k <= l <= |profiles|
    ensures |Flatten(s, profiles[..k])| <= |Flatten(s, profiles[..l])|
  {
    assert profiles[..l] == profiles[..k] + profiles[k..l];
    FlattenAppend(s, profiles[..k], profiles[k..l]);
  }

  /** The pool walk lists its queues profile by profile, in the order of the pool's profile list, and
      those of one profile in the order of its queue list. */
  lemma PoolSelectionOrder(s: Qos, pool: Oid, k: nat, i: nat, l: nat, j: nat)
    requires Linked(s) && pool in s.pools && k <= l < |s.pools[pool].profiles|
    requires s.pools[pool].profiles[k] in s.profiles && s.pools[pool].profiles[l] in s.profiles
    requires var p, q := s.profiles[s.pools[pool].profiles[k]].queues, s.profiles[s.pools[pool].profiles[l]].queues;
             i < |p| && j < |q| && (k == l ==> i < j)
             && p[i] in PoolSelection(s, pool) && q[j] in PoolSelection(s, pool)
    ensures Before(PoolSelection(s, pool),
                   s.profiles[s.pools[pool].profiles[k]].queues[i], s.profiles[s.pools[pool].profiles[l]].queues[j])
  {
    var profiles := s.pools[pool].profiles;
    var a, b := s.profiles[profiles[k]].queues[i], s.profiles[profiles[l]].queues[j];
    var all := Flatten(s, profiles);
    SelectMember(s, all, FrontEnd, a);
    SelectMember(s, all, FrontEnd, b);
    var x := FlattenAt(s, profiles, k, i);
    var y := FlattenAt(s, profiles, l, j);
    if k < l {
      FlattenGrows(s, profiles, k + 1, l);
    }
    SelectKeepsOrder(s, all, FrontEnd, x, y);
  }

  /** Restricted to a port, the selection of the pool walk is that of the port walk if the port is
      a front-end port, and empty otherwise; neither names a queue twice. */
  lemma WalksAgree(s: Qos, port: Oid, pool: Oid)
    requires Linked(s) && port in s.ports && pool in s.pools
    ensures Distinct(PoolSelection(s, pool)) && Distinct(PortSelection(s, port, pool))
    ensures forall q :: q in s.queues && s.queues[q].portId == port && q in PoolSelection(s, pool)
                   <==> q in PortSelection(s, port, pool) && s.isLogical(port)
  {
    PoolSelectionExact(s, pool);
    PortSelectionExact(s, port, pool);
  }
}
