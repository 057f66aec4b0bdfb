/** The port-pool index refines one plain list of port pools. */
module PortPoolSimple {
  import opened SaiTypes
  import opened Collections
  import opened PortPool

  /** The simplest form of the table: the ports that have a QoS node, and all port pools in the order
      of their addition. */
  datatype Simple = Simple(ports: set<Oid>, nodes: seq<PortPoolNode>)

  predicate Clashes(n: PortPoolNode, m: PortPoolNode) {
    n.portPoolId == m.portPoolId || (n.portId == m.portId && n.poolId == m.poolId)
  }

  /** The nodes of one port. */
  function OfPort(nodes: seq<PortPoolNode>, port: Oid): seq<PortPoolNode> {
    if nodes == [] then []
    else OfPort(nodes[..|nodes| - 1], port) + if nodes[|nodes| - 1].portId == port then [nodes[|nodes| - 1]] else []
  }

  /** The nodes but the one with an id. */
  function Others(nodes: seq<PortPoolNode>, id: Oid): seq<PortPoolNode> {
    if nodes == [] then []
    else Others(nodes[..|nodes| - 1], id) + if nodes[|nodes| - 1].portPoolId == id then [] else [nodes[|nodes| - 1]]
  }

  function SimpleStep(s: Simple, op: Op): (Simple, Status) {
    match op
    case Add(n) =>
      if n.portId in s.ports && forall i | 0 <= i < |s.nodes| :: !Clashes(n, s.nodes[i])
      then (s.(nodes := s.nodes + [n]), Success) else (s, Failure)
    case Remove(id) =>
      if exists i :: 0 <= i < |s.nodes| && s.nodes[i].portPoolId == id
      then (s.(nodes := Others(s.nodes, id)), Success) else (s, InvalidObjectId)
    case PortUp(port) => (s.(ports := s.ports + {port}), Success)
    case PortDown(port) => (if OfPort(s.nodes, port) == [] then s.(ports := s.ports - {port}) else s, Success)
  }

  function SimpleRun(s: Simple, ops: seq<Op>): Simple
    decreases |ops|
  {
    if ops == [] then s else SimpleRun(SimpleStep(s, ops[0]).0, ops[1..])
  }

  /** The status the library reports for an operation. */
  function Reported(x: Index, op: Op): Status {
    match op
    case Add(n) => AddNode(x, n).1
    case Remove(id) => RemoveNode(x, id).1
    case _ => Success
  }

  predicate SameNodes(x: Index, nodes: seq<PortPoolNode>) {
    && (forall i | 0 <= i < |nodes| :: nodes[i].portPoolId in x.byId && x.byId[nodes[i].portPoolId] == nodes[i])
    && (forall id | id in x.byId :: x.byId[id] in nodes)
  }

  predicate SameLists(x: Index, nodes: seq<PortPoolNode>) {
    forall port | port in x.lists :: x.lists[port] == OfPort(nodes, port)
  }

  /** The two trees and the lists are three views of the one list. */
  ghost predicate Represents(x: Index, s: Simple) {
    Valid(x) && x.lists.Keys == s.ports && SameNodes(x, s.nodes) && SameLists(x, s.nodes)
  }

  lemma OfPortLast(nodes: seq<PortPoolNode>, n: PortPoolNode, port: Oid)
    ensures OfPort(nodes + [n], port) == if n.portId == port then OfPort(nodes, port) + [n] else OfPort(nodes, port)
  {
    assert (nodes + [n])[..|nodes|] == nodes;
  }

  lemma OthersLast(nodes: seq<PortPoolNode>, n: PortPoolNode, id: Oid)
    ensures Others(nodes + [n], id) == if n.portPoolId == id then Others(nodes, id) else Others(nodes, id) + [n]
  {
    assert (nodes + [n])[..|nodes|] == nodes;
  }

  lemma {:induction false} OthersMembers(nodes: seq<PortPoolNode>, id: Oid, n: PortPoolNode)
    ensures n in Others(nodes, id) <==> n in nodes && n.portPoolId != id
  {
    if nodes == [] {
    } else {
      var k := |nodes| - 1;
      OthersMembers(nodes[..k], id, n);
      assert nodes == nodes[..k] + [nodes[k]];
    }
  }

  lemma {:induction false} OfPortMembers(nodes: seq<PortPoolNode>, port: Oid, n: PortPoolNode)
    ensures n in OfPort(nodes, port) <==> n in nodes && n.portId == port
  {
    if nodes == [] {
    } else {
      var k := |nodes| - 1;
      OfPortMembers(nodes[..k], port, n);
      assert nodes == nodes[..k] + [nodes[k]];
    }
  }

  lemma {:induction false} WithoutAppend(list: seq<PortPoolNode>, m: PortPoolNode, n: PortPoolNode)
    ensures Without(list + [m], n) == if n in list then Without(list, n) + [m] else if m == n then list else list + [m]
  {
    if list == [] {
    } else {
      WithoutAppend(list[1..], m, n);
      assert (list + [m])[1..] == list[1..] + [m];
      assert list == [list[0]] + list[1..];
    }
  }

  lemma DistinctPrefix(a: seq<PortPoolNode>, b: seq<PortPoolNode>)
    requires Distinct(a + b)
    ensures Distinct(a) && forall i | 0 <= i < |b| :: b[i] !in a
    ensures |b| == 1 ==> b[0] !in a
  {
    forall i, j | 0 <= i < j < |a| ensures a[i] != a[j] {
      assert (a + b)[i] != (a + b)[j];
    }
    forall i | 0 <= i < |b| ensures b[i] !in a {
      forall j | 0 <= j < |a| ensures a[j] != b[i] {
        assert (a + b)[j] != (a + b)[|a| + i];
      }
    }
  }

  lemma {:induction false} WithoutAbsent(list: seq<PortPoolNode>, n: PortPoolNode)
    requires n !in list
    ensures Without(list, n) == list
  {
    if list == [] {
    } else {
      WithoutAbsent(list[1..], n);
    }
  }

  /** Taking a node out of a list with one more node at its end. */
  lemma WithoutOneMore(list: seq<PortPoolNode>, last: PortPoolNode, n: PortPoolNode)
    requires last !in list
    ensures Without(list + [last], n) == if last == n then Without(list, n) else Without(list, n) + [last]
  {
    WithoutAppend(list, last, n);
    if n !in list {
      WithoutAbsent(list, n);
    }
  }

  /** Taking a node out of the one list takes it out of the list of its port. */
  lemma {:induction false} OthersOfPort(nodes: seq<PortPoolNode>, n: PortPoolNode, port: Oid)
    requires forall m | m in nodes && m.portPoolId == n.portPoolId :: m == n
    requires Distinct(OfPort(nodes, n.portId))
    ensures OfPort(Others(nodes, n.portPoolId), port)
         == if port == n.portId then Without(OfPort(nodes, port), n) else OfPort(nodes, port)
  {
    if nodes == [] {
    } else {
      var k := |nodes| - 1;
      var rest, last := nodes[..k], nodes[k];
      assert nodes == rest + [last] && last in nodes;
      OthersLast(rest, last, n.portPoolId);
      OfPortLast(rest, last, port);
      OfPortLast(rest, last, n.portId);
      OfPortLast(Others(rest, n.portPoolId), last, port);
      DistinctPrefix(OfPort(rest, n.portId), if last.portId == n.portId then [last] else []);
      OthersOfPort(rest, n, port);
      if last.portId == port == n.portId {
        WithoutOneMore(OfPort(rest, port), last, n);
      }
    }
  }

  lemma ClashMeans(x: Index, s: Simple, n: PortPoolNode)
    requires Represents(x, s)
    ensures (forall i | 0 <= i < |s.nodes| :: !Clashes(n, s.nodes[i])) <==> n.portPoolId !in x.byId && PairOf(n) !in x.byPair
  {
    if n.portPoolId in x.byId {
      assert x.byId[n.portPoolId] in s.nodes;
    } else if PairOf(n) in x.byPair {
      var m := x.byPair[PairOf(n)];
      assert Everywhere(x, m) && m in s.nodes;
      assert PairOf(m) == PairOf(n);
    } else {
      forall i | 0 <= i < |s.nodes| ensures !Clashes(n, s.nodes[i]) {
        assert s.nodes[i] in s.nodes;
        assert Everywhere(x, s.nodes[i]);
      }
    }
  }

  lemma AddKeepsNodes(x: Index, nodes: seq<PortPoolNode>, n: PortPoolNode)
    requires AddNode(x, n).1 == Success && SameNodes(x, nodes)
    ensures SameNodes(AddNode(x, n).0, nodes + [n])
  {
    var y, more := AddNode(x, n).0, nodes + [n];
    AddPutsIn(x, n);
    assert more[|nodes|] == n;
    forall i | 0 <= i < |nodes| ensures more[i].portPoolId in y.byId && y.byId[more[i].portPoolId] == more[i] {
      assert more[i] == nodes[i];
    }
    forall k | k in y.byId ensures y.byId[k] in more {
      assert k == n.portPoolId || x.byId[k] in nodes;
    }
  }

  lemma AddKeepsLists(x: Index, nodes: seq<PortPoolNode>, n: PortPoolNode)
    requires AddNode(x, n).1 == Success && SameLists(x, nodes)
    ensures SameLists(AddNode(x, n).0, nodes + [n])
  {
    AddPutsIn(x, n);
    forall port | port in x.lists ensures AddNode(x, n).0.lists[port] == OfPort(nodes + [n], port) {
      OfPortLast(nodes, n, port);
    }
  }

  lemma AddAnswers(x: Index, s: Simple, n: PortPoolNode)
    requires Represents(x, s)
    ensures AddNode(x, n).1 == SimpleStep(s, Add(n)).1
  {
    ClashMeans(x, s, n);
  }

  lemma AddRefines(x: Index, s: Simple, n: PortPoolNode)
    requires Represents(x, s)
    ensures Represents(AddNode(x, n).0, SimpleStep(s, Add(n)).0)
    ensures AddNode(x, n).1 == SimpleStep(s, Add(n)).1
  {
    AddAnswers(x, s, n);
    AddKeepsValid(x, n);
    if AddNode(x, n).1 == Success {
      AddKeepsNodes(x, s.nodes, n);
      AddKeepsLists(x, s.nodes, n);
      AddPutsIn(x, n);
    }
  }

  lemma RemoveKeepsNodes(x: Index, nodes: seq<PortPoolNode>, id: Oid)
    requires Valid(x) && id in x.byId && SameNodes(x, nodes)
    ensures SameNodes(RemoveNode(x, id).0, Others(nodes, id))
  {
    var y, rest := RemoveNode(x, id).0, Others(nodes, id);
    RemoveTakesOut(x, id);
    forall k | k in y.byId ensures y.byId[k] in rest {
      OthersMembers(nodes, id, y.byId[k]);
    }
    forall i | 0 <= i < |rest| ensures rest[i].portPoolId in y.byId && y.byId[rest[i].portPoolId] == rest[i] {
      OthersMembers(nodes, id, rest[i]);
    }
  }

  lemma RemoveKeepsLists(x: Index, nodes: seq<PortPoolNode>, id: Oid)
    requires Valid(x) && id in x.byId && SameNodes(x, nodes) && SameLists(x, nodes)
    ensures SameLists(RemoveNode(x, id).0, Others(nodes, id))
  {
    var n, y := x.byId[id], RemoveNode(x, id).0;
    forall port | port in y.lists ensures y.lists[port] == OfPort(Others(nodes, id), port) {
      OthersOfPort(nodes, n, port);
    }
  }

  lemma RemoveRefines(x: Index, s: Simple, id: Oid)
    requires Represents(x, s)
    ensures Represents(RemoveNode(x, id).0, SimpleStep(s, Remove(id)).0)
    ensures RemoveNode(x, id).1 == SimpleStep(s, Remove(id)).1
  {
    RemoveKeepsValid(x, id);
    if id in x.byId {
      assert x.byId[id] in s.nodes;
      RemoveKeepsNodes(x, s.nodes, id);
      RemoveKeepsLists(x, s.nodes, id);
    } else {
      forall i | 0 <= i < |s.nodes| ensures s.nodes[i].portPoolId != id {
        assert s.nodes[i] in s.nodes;
      }
    }
  }

  /** A port without a QoS node has no port pools. */
  lemma NoNodesYet(x: Index, s: Simple, port: Oid)
    requires Represents(x, s) && port !in x.lists
    ensures OfPort(s.nodes, port) == []
  {
    var list := OfPort(s.nodes, port);
    if list != [] {
      OfPortMembers(s.nodes, port, list[0]);
      assert false;
    }
  }

  lemma UpKeepsValid(x: Index, port: Oid)
    requires Valid(x) && port !in x.lists
    ensures Valid(x.(lists := x.lists[port := []]))
  {
  }

  lemma PortUpRefines(x: Index, s: Simple, port: Oid)
    requires Represents(x, s)
    ensures Represents(Step(x, PortUp(port)), SimpleStep(s, PortUp(port)).0)
  {
    if port !in x.lists {
      NoNodesYet(x, s, port);
      var y := x.(lists := x.lists[port := []]);
      assert SameLists(y, s.nodes);
      UpKeepsValid(x, port);
    }
  }

  lemma PortDownRefines(x: Index, s: Simple, port: Oid)
    requires Represents(x, s)
    ensures Represents(Step(x, PortDown(port)), SimpleStep(s, PortDown(port)).0)
  {
    if port !in x.lists {
      assert s.ports - {port} == s.ports;
    }
  }

  lemma StepRefines(x: Index, s: Simple, op: Op)
    requires Represents(x, s)
    ensures Represents(Step(x, op), SimpleStep(s, op).0)
    ensures Reported(x, op) == SimpleStep(s, op).1
  {
    match op
    case Add(n) => AddRefines(x, s, n);
    case Remove(id) => RemoveRefines(x, s, id);
    case PortUp(port) => PortUpRefines(x, s, port);
    case PortDown(port) => PortDownRefines(x, s, port);
  }

  /** The two trees and the lists refine the one list: after any run they show exactly the nodes added
      and not removed since, under their ids, under their pairs, and port by port in the order of
      their addition; and every operation answers what it answers on the one list. */
  lemma {:induction false} RunRefines(x: Index, s: Simple, ops: seq<Op>, next: Op)
    requires Represents(x, s)
    ensures Represents(Run(x, ops), SimpleRun(s, ops))
    ensures Reported(Run(x, ops), next) == SimpleStep(SimpleRun(s, ops), next).1
    decreases |ops|
  {
    if ops == [] {
      StepRefines(x, s, next);
    } else {
      StepRefines(x, s, ops[0]);
      RunRefines(Step(x, ops[0]), SimpleStep(s, ops[0]).0, ops[1..], next);
    }
  }

  lemma EmptyRepresents()
    ensures Represents(Index(map[], map[], map[]), Simple({}, []))
  {
  }
}
