/** The port-pool nodes: two trees and one list per port that hold the same nodes. */
module PortPool {
  import opened SaiTypes
  import opened Collections

  /** A node is known by its reference; its keys never change. */
  class PortPoolNode {
    const portPoolId: Oid
    const portId: Oid
    const poolId: Oid

    constructor (portPoolId: Oid, portId: Oid, poolId: Oid)
      ensures this.portPoolId == portPoolId && this.portId == portId && this.poolId == poolId
    {
      this.portPoolId, this.portId, this.poolId := portPoolId, portId, poolId;
    }
  }

  type Pair = (Oid, Oid)

  function PairOf(n: PortPoolNode): Pair {
    (n.portId, n.poolId)
  }

  /** The object-id tree, the (port, pool) tree, and the list of each port that has a QoS node. */
  datatype Index = Index(
    byId: map<Oid, PortPoolNode>,
    byPair: map<Pair, PortPoolNode>,
    lists: map<Oid, seq<PortPoolNode>>)

  function Without(list: seq<PortPoolNode>, n: PortPoolNode): seq<PortPoolNode> {
    if list == [] then [] else if list[0] == n then list[1..] else [list[0]] + Without(list[1..], n)
  }

  /** Insertion: all three structures or none. */
  function AddNode(x: Index, n: PortPoolNode): (Index, Status) {
    if n.portId !in x.lists || n.portPoolId in x.byId || PairOf(n) in x.byPair then (x, Failure)
    else
      (Index(x.byId[n.portPoolId := n], x.byPair[PairOf(n) := n], x.lists[n.portId := x.lists[n.portId] + [n]]),
       Success)
  }

  /** Removal, with every way out of the code, including the one that leaves the id tree changed
      and the others not. */
  function RemoveNode(x: Index, id: Oid): (Index, Status) {
    if id !in x.byId then (x, InvalidObjectId)
    else
      var n := x.byId[id];
      if n.portId !in x.lists || n.portPoolId !in x.byId then (x, Failure)
      else if PairOf(n) !in x.byPair then (x.(byId := x.byId - {n.portPoolId}), Failure)
      else
        (Index(x.byId - {n.portPoolId}, x.byPair - {PairOf(n)},
               x.lists[n.portId := Without(x.lists[n.portId], x.byPair[PairOf(n)])]), Success)
  }

  class PortPoolTables {
    var byId: map<Oid, PortPoolNode>
    var byPair: map<Pair, PortPoolNode>
    var lists: map<Oid, seq<PortPoolNode>>

    constructor ()
      ensures State() == Index(map[], map[], map[])
    {
      byId, byPair, lists := map[], map[], map[];
    }

    function State(): Index
      reads this
    {
      Index(byId, byPair, lists)
    }

    /** Insertion into a tree fails when the key is present; the second failure rolls the first
        insertion back. */
    method AddPortPoolNode(portPoolId: Oid, portId: Oid, poolId: Oid) returns (rc: Status, ghost node: PortPoolNode)
      modifies this
      ensures fresh(node) && node.portPoolId == portPoolId && PairOf(node) == (portId, poolId)
      ensures (State(), rc) == AddNode(old(State()), node)
    {
      var n := new PortPoolNode(portPoolId, portId, poolId);
      node := n;
      if portId !in lists {
        return Failure, node;
      }
      if portPoolId in byId {
        return Failure, node;
      }
      byId := byId[portPoolId := n];
      if (portId, poolId) in byPair {
        byId := byId - {portPoolId};
        assert byId == old(byId);
        return Failure, node;
      }
      byPair := byPair[(portId, poolId) := n];
      lists := lists[portId := lists[portId] + [n]];
      return Success, node;
    }

    method RemovePortPoolNode(id: Oid) returns (rc: Status)
      modifies this
      ensures (State(), rc) == RemoveNode(old(State()), id)
    {
      if id !in byId {
        return InvalidObjectId;
      }
      var n := byId[id];
      if n.portId !in lists {
        return Failure;
      }
      if n.portPoolId !in byId {
        return Failure;
      }
      byId := byId - {n.portPoolId};
      if (n.portId, n.poolId) !in byPair {
        return Failure;
      }
      var removed := byPair[(n.portId, n.poolId)];
      byPair := byPair - {(n.portId, n.poolId)};
      lists := lists[n.portId := Without(lists[n.portId], removed)];
      return Success;
    }

    method NodeGetFromObjId(id: Oid) returns (node: PortPoolNode?)
      ensures node == if id in byId then byId[id] else null
    {
      node := if id in byId then byId[id] else null;
    }

    method NodeGet(port: Oid, pool: Oid) returns (node: PortPoolNode?)
      ensures node == if (port, pool) in byPair then byPair[(port, pool)] else null
    {
      node := if (port, pool) in byPair then byPair[(port, pool)] else null;
    }
  }

  // ---------------------------------------------------------------- the triple index

  /** The node is found under its id, under its pair, and in the list of its port. */
  predicate Everywhere(x: Index, n: PortPoolNode) {
    && n.portPoolId in x.byId && x.byId[n.portPoolId] == n
    && PairOf(n) in x.byPair && x.byPair[PairOf(n)] == n
    && n.portId in x.lists && n in x.lists[n.portId]
  }

  /** Whatever any of the three structures holds, it holds under the right key, and so do the
      other two. */
  ghost predicate Valid(x: Index) {
    && (forall id | id in x.byId :: x.byId[id].portPoolId == id && Everywhere(x, x.byId[id]))
    && (forall pair | pair in x.byPair :: PairOf(x.byPair[pair]) == pair && Everywhere(x, x.byPair[pair]))
    && (forall port | port in x.lists :: Distinct(x.lists[port]))
    && (forall port, i | port in x.lists && 0 <= i < |x.lists[port]| ::
          x.lists[port][i].portId == port && Everywhere(x, x.lists[port][i]))
  }

  lemma {:induction false} WithoutMembers(list: seq<PortPoolNode>, n: PortPoolNode)
    requires Distinct(list)
    ensures forall i | 0 <= i < |Without(list, n)| :: Without(list, n)[i] in list && Without(list, n)[i] != n
  {
    if list == [] {
    } else {
      WithoutMembers(list[1..], n);
      assert forall i | 0 <= i < |list[1..]| :: list[1..][i] == list[i + 1];
    }
  }

  lemma {:induction false} WithoutKeepsOthers(list: seq<PortPoolNode>, n: PortPoolNode, m: PortPoolNode)
    requires m in list && m != n
    ensures m in Without(list, n)
  {
    if list[0] == n || list[0] == m {
    } else {
      WithoutKeepsOthers(list[1..], n, m);
    }
  }

  lemma PrependDistinct(n: PortPoolNode, list: seq<PortPoolNode>)
    requires Distinct(list) && forall j | 0 <= j < |list| :: list[j] != n
    ensures Distinct([n] + list)
  {
  }

  lemma {:induction false} WithoutDistinct(list: seq<PortPoolNode>, n: PortPoolNode)
    requires Distinct(list)
    ensures Distinct(Without(list, n))
  {
    if list == [] || list[0] == n {
    } else {
      var rest := Without(list[1..], n);
      WithoutDistinct(list[1..], n);
      WithoutMembers(list[1..], n);
      forall j | 0 <= j < |rest| ensures rest[j] != list[0] {
        assert rest[j] in list[1..];
      }
      PrependDistinct(list[0], rest);
    }
  }

  lemma AddedEverywhere(x: Index, n: PortPoolNode, m: PortPoolNode)
    requires AddNode(x, n).1 == Success && (m == n || Everywhere(x, m))
    ensures Everywhere(AddNode(x, n).0, m)
  {
    var list := x.lists[n.portId];
    assert (list + [n])[|list|] == n;
    assert forall i | 0 <= i < |list| :: (list + [n])[i] == list[i];
  }

  /** A node that can be added is in no list yet. */
  lemma NotListed(x: Index, n: PortPoolNode)
    requires Valid(x) && AddNode(x, n).1 == Success
    ensures n !in x.lists[n.portId]
  {
    var list := x.lists[n.portId];
    forall i | 0 <= i < |list| ensures list[i] != n {
      assert Everywhere(x, list[i]);
    }
  }

  lemma AddedLists(x: Index, n: PortPoolNode)
    requires Valid(x) && AddNode(x, n).1 == Success
    ensures var x' := AddNode(x, n).0;
            && (forall port | port in x'.lists :: Distinct(x'.lists[port]))
            && (forall port, i | port in x'.lists && 0 <= i < |x'.lists[port]| ::
                  x'.lists[port][i].portId == port && Everywhere(x', x'.lists[port][i]))
  {
    var x' := AddNode(x, n).0;
    NotListed(x, n);
    forall port, i | port in x'.lists && 0 <= i < |x'.lists[port]|
      ensures x'.lists[port][i].portId == port && Everywhere(x', x'.lists[port][i])
    {
      if port != n.portId || i < |x.lists[port]| {
        assert x'.lists[port][i] == x.lists[port][i];
      }
      AddedEverywhere(x, n, x'.lists[port][i]);
    }
  }

  /** An addition succeeds exactly when the port has a QoS node and both keys are new; one that
      fails changes nothing. */
  lemma AddKeepsValid(x: Index, n: PortPoolNode)
    requires Valid(x)
    ensures Valid(AddNode(x, n).0)
    ensures AddNode(x, n).1 == Success <==> n.portId in x.lists && n.portPoolId !in x.byId && PairOf(n) !in x.byPair
    ensures AddNode(x, n).1 != Success ==> AddNode(x, n).0 == x
  {
    var x' := AddNode(x, n).0;
    if AddNode(x, n).1 == Success {
      AddedEverywhere(x, n, n);
      forall k | k in x'.byId ensures x'.byId[k].portPoolId == k && Everywhere(x', x'.byId[k]) {
        AddedEverywhere(x, n, x'.byId[k]);
      }
      forall pair | pair in x'.byPair ensures PairOf(x'.byPair[pair]) == pair && Everywhere(x', x'.byPair[pair]) {
        AddedEverywhere(x, n, x'.byPair[pair]);
      }
      AddedLists(x, n);
    }
  }

  lemma StaysEverywhere(x: Index, n: PortPoolNode, m: PortPoolNode)
    requires Valid(x) && Everywhere(x, n) && Everywhere(x, m) && m != n
    ensures Everywhere(RemoveNode(x, n.portPoolId).0, m)
  {
    if m.portId == n.portId {
      WithoutKeepsOthers(x.lists[n.portId], n, m);
    }
  }

  /** In a valid index a removal fails only for an unknown id, and then changes nothing: the way
      out that leaves the node half removed is never taken. */
  lemma RemoveKeepsValid(x: Index, id: Oid)
    requires Valid(x)
    ensures Valid(RemoveNode(x, id).0)
    ensures RemoveNode(x, id).1 == if id in x.byId then Success else InvalidObjectId
    ensures id !in x.byId ==> RemoveNode(x, id).0 == x
  {
    if id in x.byId {
      var n := x.byId[id];
      var x' := RemoveNode(x, id).0;
      WithoutDistinct(x.lists[n.portId], n);
      WithoutMembers(x.lists[n.portId], n);
      forall k | k in x'.byId ensures x'.byId[k].portPoolId == k && Everywhere(x', x'.byId[k]) {
        StaysEverywhere(x, n, x.byId[k]);
      }
      forall pair | pair in x'.byPair ensures PairOf(x'.byPair[pair]) == pair && Everywhere(x', x'.byPair[pair]) {
        StaysEverywhere(x, n, x.byPair[pair]);
      }
      forall port, i | port in x'.lists && 0 <= i < |x'.lists[port]|
        ensures x'.lists[port][i].portId == port && Everywhere(x', x'.lists[port][i])
      {
        var m := x'.lists[port][i];
        assert m in x'.lists[port];
        if port == n.portId {
          assert m == Without(x.lists[port], n)[i];
        } else {
          assert m == x.lists[port][i];
        }
        var j :| 0 <= j < |x.lists[port]| && x.lists[port][j] == m;
        StaysEverywhere(x, n, m);
      }
    }
  }

  /** Ids and (port, pool) pairs are in bijection, and each structure holds the nodes of the two
      others. */
  lemma ValidMeans(x: Index)
    requires Valid(x)
    ensures x.byId.Values == x.byPair.Values
    ensures forall n :: n in x.byId.Values <==> n.portId in x.lists && n in x.lists[n.portId]
    ensures forall a, b | a in x.byId && b in x.byId && a != b :: PairOf(x.byId[a]) != PairOf(x.byId[b])
    ensures forall pair | pair in x.byPair ::
              x.byPair[pair].portPoolId in x.byId && PairOf(x.byId[x.byPair[pair].portPoolId]) == pair
  {
    forall n | n in x.byId.Values ensures n in x.byPair.Values {
      assert PairOf(n) in x.byPair;
    }
    forall n | n in x.byPair.Values ensures n in x.byId.Values {
      assert n.portPoolId in x.byId;
    }
    forall n: PortPoolNode | n.portId in x.lists && n in x.lists[n.portId] ensures n in x.byId.Values {
      var i :| 0 <= i < |x.lists[n.portId]| && x.lists[n.portId][i] == n;
      assert Everywhere(x, x.lists[n.portId][i]);
    }
  }

  lemma {:induction false} WithoutLast(list: seq<PortPoolNode>, n: PortPoolNode)
    requires n !in list
    ensures Without(list + [n], n) == list
  {
    if list == [] {
    } else {
      WithoutLast(list[1..], n);
      assert (list + [n])[1..] == list[1..] + [n];
    }
  }

  /** Removing a node undoes its addition, down to the order of its port's list. */
  lemma RemoveUndoesAdd(x: Index, n: PortPoolNode)
    requires Valid(x) && AddNode(x, n).1 == Success
    ensures RemoveNode(AddNode(x, n).0, n.portPoolId) == (x, Success)
  {
    NotListed(x, n);
    WithoutLast(x.lists[n.portId], n);
    var y := RemoveNode(AddNode(x, n).0, n.portPoolId).0;
    assert y.byId == x.byId && y.byPair == x.byPair && y.lists == x.lists;
  }

  /** A removal that succeeds takes exactly its node out: from the two trees its id and its pair, from
      the lists of the ports no other node. */
  lemma RemoveTakesOut(x: Index, id: Oid)
    requires Valid(x) && id in x.byId
    ensures var y, n := RemoveNode(x, id).0, x.byId[id];
            && (forall k :: k in y.byId <==> k in x.byId && k != id)
            && (forall k | k in y.byId :: y.byId[k] == x.byId[k])
            && (forall p :: p in y.byPair <==> p in x.byPair && p != PairOf(n))
            && (forall p | p in y.byPair :: y.byPair[p] == x.byPair[p])
            && y.lists.Keys == x.lists.Keys
            && (forall port, m | port in x.lists :: m in y.lists[port] <==> m in x.lists[port] && m != n)
  {
    var y, n := RemoveNode(x, id).0, x.byId[id];
    WithoutMembers(x.lists[n.portId], n);
    forall port, m | port in x.lists ensures m in y.lists[port] <==> m in x.lists[port] && m != n {
      if m in x.lists[port] {
        var i :| 0 <= i < |x.lists[port]| && x.lists[port][i] == m;
        if m != n && port == n.portId {
          WithoutKeepsOthers(x.lists[port], n, m);
        }
      }
      if port == n.portId && m in y.lists[port] {
        var i :| 0 <= i < |Without(x.lists[port], n)| && Without(x.lists[port], n)[i] == m;
      }
    }
  }

  /** An addition that succeeds puts exactly its node in, last in the list of its port. */
  lemma AddPutsIn(x: Index, n: PortPoolNode)
    requires AddNode(x, n).1 == Success
    ensures var y := AddNode(x, n).0;
            && (forall k :: k in y.byId <==> k in x.byId || k == n.portPoolId)
            && (forall k | k in y.byId :: y.byId[k] == if k == n.portPoolId then n else x.byId[k])
            && (forall p :: p in y.byPair <==> p in x.byPair || p == (n.portId, n.poolId))
            && (forall p | p in y.byPair :: y.byPair[p] == if p == (n.portId, n.poolId) then n else x.byPair[p])
            && y.lists.Keys == x.lists.Keys
            && (forall port | port in x.lists :: y.lists[port] == x.lists[port] + if port == n.portId then [n] else [])
  {
  }

  // ---------------------------------------------------------------- whole runs

  datatype Op = Add(node: PortPoolNode) | Remove(id: Oid) | PortUp(port: Oid) | PortDown(port: Oid)

  /** Port nodes come and go elsewhere; one that goes has no port pools left. */
  function Step(x: Index, op: Op): Index {
    match op
    case Add(n) => AddNode(x, n).0
    case Remove(id) => RemoveNode(x, id).0
    case PortUp(port) => if port in x.lists then x else x.(lists := x.lists[port := []])
    case PortDown(port) => if port in x.lists && x.lists[port] == [] then x.(lists := x.lists - {port}) else x
  }

  function Run(x: Index, ops: seq<Op>): Index
    decreases |ops|
  {
    if ops == [] then x else Run(Step(x, ops[0]), ops[1..])
  }

  /** The index is valid in every reachable state, so no run ever takes the half-removed way out. */
  lemma {:induction false} EveryRun(x: Index, ops: seq<Op>, id: Oid)
    requires Valid(x)
    ensures Valid(Run(x, ops))
    ensures RemoveNode(Run(x, ops), id).1 != Failure
    decreases |ops|
  {
    if ops == [] {
      RemoveKeepsValid(x, id);
    } else {
      match ops[0] {
        case Add(n) => AddKeepsValid(x, n);
        case Remove(k) => RemoveKeepsValid(x, k);
        case PortUp(_) =>
        case PortDown(_) =>
      }
      EveryRun(Step(x, ops[0]), ops[1..], id);
    }
  }

  lemma EmptyIsValid()
    ensures Valid(Index(map[], map[], map[]))
  {
  }
}
