/** What every run of the bridge database keeps. */
module BridgeRuns {
  import opened SaiTypes
  import opened SaiMap
  import opened BridgeDb

  function Val1Of(d: Data): Oid {
    d.val1
  }

  /** The ids listed under a key, with their multiplicities. */
  function Listed(m: Lists, key: Key): multiset<Oid> {
    Bag(ListAt(m, key), Val1Of)
  }

  lemma ListedAfterAdd(m: Lists, key: Key, v: Oid)
    ensures Listed(ListAdd(m, key, v), key) == Listed(m, key) + multiset{v}
  {
    BagLast(ListAt(m, key), Data(v, 0), Val1Of);
  }

  lemma ListAfterRemove(m: Lists, key: Key, v: Oid)
    ensures ListAt(ListRemove(m, key, v), key) == RemoveFirst(ListAt(m, key), Data(v, 0), FILTER_VAL1)
  {
    var d := Data(v, 0);
    var list := ListAt(m, key);
    assert [d][1..] == [];
    assert RemoveEach(list, [d], FILTER_VAL1) == RemoveFirst(list, d, FILTER_VAL1);
  }

  lemma ListedAfterRemove(m: Lists, key: Key, v: Oid)
    ensures Listed(ListRemove(m, key, v), key) == Listed(m, key) - multiset{v}
  {
    ListAfterRemove(m, key, v);
    RemoveFirstBag(ListAt(m, key), Data(v, 0), FILTER_VAL1, Val1Of);
  }

  /** The list of another key is not touched. */
  lemma OtherList(m: Lists, key: Key, v: Oid, k: Key)
    requires k != key
    ensures ListAt(ListAdd(m, key, v), k) == ListAt(m, k)
    ensures ListAt(ListRemove(m, key, v), k) == ListAt(m, k)
    ensures ListAt(m - {key}, k) == ListAt(m, k)
  {
  }

  lemma SizeAfterRemove(m: Lists, key: Key, v: Oid)
    ensures |ListAt(ListRemove(m, key, v), key)| == |ListAt(m, key)| - if v in Listed(m, key) then 1 else 0
  {
    var list := ListAt(m, key);
    ListAfterRemove(m, key, v);
    BagMember(list, Val1Of, v);
    var k := FirstMatch(list, Data(v, 0), FILTER_VAL1, 0);
    if k < |list| {
      assert Val1Of(list[k]) == v;
    }
  }

  // ---------------------------------------------------------------- table and reverse index

  predicate OnBridge(db: Db, b: Oid, p: Oid) {
    p in db.ports && db.ports[p].bridgeId == b
  }

  function Once(db: Db, b: Oid, p: Oid): nat {
    if OnBridge(db, b, p) then 1 else 0
  }

  /** The bridge's list names exactly the cached ports of that bridge, each once. */
  ghost predicate Agrees(db: Db) {
    forall b, p :: Listed(db.lists, BridgeKey(b))[p] == Once(db, b, p)
  }

  function PortsOf(db: Db, b: Oid): set<Oid> {
    set p | p in db.ports && db.ports[p].bridgeId == b
  }

  lemma AgreesMeans(db: Db, b: Oid)
    requires Agrees(db)
    ensures Listed(db.lists, BridgeKey(b)) == multiset(PortsOf(db, b))
  {
    forall p ensures Listed(db.lists, BridgeKey(b))[p] == multiset(PortsOf(db, b))[p] {
      assert p in PortsOf(db, b) <==> OnBridge(db, b, p);
    }
  }

  lemma AddCell(m: Lists, b: Oid, id: Oid, c: Oid, p: Oid)
    ensures Listed(ListAdd(m, BridgeKey(b), id), BridgeKey(c))[p]
         == Listed(m, BridgeKey(c))[p] + if c == b && p == id then 1 else 0
  {
    if c == b {
      ListedAfterAdd(m, BridgeKey(b), id);
    } else {
      OtherList(m, BridgeKey(b), id, BridgeKey(c));
    }
  }

  lemma WriteCell(db: Db, id: Oid, info: BridgePortInfo, c: Oid, p: Oid)
    ensures Listed(WritePort(db, id, info).lists, BridgeKey(c))[p]
         == Listed(db.lists, BridgeKey(c))[p] + if c == info.bridgeId && p == info.bridgePortId then 1 else 0
  {
    AddCell(db.lists, info.bridgeId, info.bridgePortId, c, p);
  }

  lemma OnceAfterWrite(db: Db, id: Oid, info: BridgePortInfo, c: Oid, p: Oid)
    requires id !in db.ports
    ensures Once(WritePort(db, id, info), c, p) == Once(db, c, p) + if c == info.bridgeId && p == id then 1 else 0
  {
  }

  lemma WriteFresh(db: Db, id: Oid, info: BridgePortInfo)
    requires Agrees(db) && id !in db.ports && info.bridgePortId == id
    ensures Agrees(WritePort(db, id, info))
  {
    forall c, p
      ensures Listed(WritePort(db, id, info).lists, BridgeKey(c))[p] == Once(WritePort(db, id, info), c, p)
    {
      WriteCell(db, id, info, c, p);
      assert Listed(db.lists, BridgeKey(c))[p] == Once(db, c, p);
      OnceAfterWrite(db, id, info, c, p);
    }
  }

  /** The cell of the index that a careless write leaves wrong. */
  lemma WriteBreaks(db: Db, id: Oid, info: BridgePortInfo, c: Oid, p: Oid)
    requires Agrees(db)
    requires if info.bridgePortId != id then c == info.bridgeId && p == info.bridgePortId
             else id in db.ports && c == db.ports[id].bridgeId && p == id
    ensures !Agrees(WritePort(db, id, info))
  {
    WriteCell(db, id, info, c, p);
    assert Listed(db.lists, BridgeKey(c))[p] == Once(db, c, p);
    assert Listed(WritePort(db, id, info).lists, BridgeKey(c))[p] != Once(WritePort(db, id, info), c, p);
  }

  /** Writing the cache keeps the index exact if and only if the id is fresh and is the id the
      record carries: an overwrite inserts a second time. */
  lemma WriteKeepsAgreement(db: Db, id: Oid, info: BridgePortInfo)
    requires Agrees(db)
    ensures Agrees(WritePort(db, id, info)) <==> id !in db.ports && info.bridgePortId == id
  {
    if info.bridgePortId != id {
      WriteBreaks(db, id, info, info.bridgeId, info.bridgePortId);
    } else if id in db.ports {
      WriteBreaks(db, id, info, db.ports[id].bridgeId, id);
    } else {
      WriteFresh(db, id, info);
    }
  }

  lemma RemoveCell(m: Lists, b: Oid, id: Oid, c: Oid, p: Oid)
    ensures Listed(ListRemove(m, BridgeKey(b), id), BridgeKey(c))[p]
         == if c == b && p == id && Listed(m, BridgeKey(c))[p] > 0 then Listed(m, BridgeKey(c))[p] - 1
            else Listed(m, BridgeKey(c))[p]
  {
    if c == b {
      ListedAfterRemove(m, BridgeKey(b), id);
    } else {
      OtherList(m, BridgeKey(b), id, BridgeKey(c));
    }
  }

  /** Deleting a cached port always keeps the index exact. */
  lemma DeleteKeepsAgreement(db: Db, id: Oid)
    requires Agrees(db)
    ensures Agrees(DeletePort(db, id))
  {
    if id in db.ports {
      var db' := DeletePort(db, id);
      forall c, p
        ensures Listed(db'.lists, BridgeKey(c))[p] == Once(db', c, p)
      {
        RemoveCell(db.lists, db.ports[id].bridgeId, id, c, p);
        assert Listed(db.lists, BridgeKey(c))[p] == Once(db, c, p);
      }
    }
  }

  /** Changing the bridge of a cached record alone keeps the index exact only when the bridge
      does not change. */
  lemma AttrKeepsAgreement(db: Db, id: Oid, attr: PortAttr)
    requires Agrees(db)
    ensures Agrees(SetAttr(db, id, attr))
       <==> (attr.BridgeId? && id in db.ports ==> db.ports[id].bridgeId == attr.bridge)
  {
    var db' := SetAttr(db, id, attr);
    if attr.BridgeId? && id in db.ports && db.ports[id].bridgeId != attr.bridge {
      assert Listed(db'.lists, BridgeKey(attr.bridge))[id] == 0;
      assert OnBridge(db', attr.bridge, id);
    } else {
      forall c, p
        ensures Listed(db'.lists, BridgeKey(c))[p] == Once(db', c, p)
      {
        assert Listed(db.lists, BridgeKey(c))[p] == Once(db, c, p);
        assert OnBridge(db', c, p) <==> OnBridge(db, c, p);
      }
    }
  }

  /** A move to another bridge: map remove, map insert, attribute update, in this order. */
  function MovePort(db: Db, id: Oid, bridge: Oid): Db
    requires id in db.ports
  {
    var removed := db.(lists := ListRemove(db.lists, BridgeKey(db.ports[id].bridgeId), id));
    var inserted := removed.(lists := ListAdd(removed.lists, BridgeKey(bridge), id));
    SetAttr(inserted, id, BridgeId(bridge))
  }

  lemma MovedPorts(db: Db, id: Oid, bridge: Oid, c: Oid, p: Oid)
    requires id in db.ports
    ensures MovePort(db, id, bridge).lists
         == ListAdd(ListRemove(db.lists, BridgeKey(db.ports[id].bridgeId), id), BridgeKey(bridge), id)
    ensures Once(MovePort(db, id, bridge), c, p)
         == if p == id then (if c == bridge then 1 else 0) else Once(db, c, p)
  {
  }

  lemma MoveCell(db: Db, id: Oid, bridge: Oid, c: Oid, p: Oid)
    requires Agrees(db) && id in db.ports
    ensures Listed(MovePort(db, id, bridge).lists, BridgeKey(c))[p] == Once(MovePort(db, id, bridge), c, p)
  {
    var b := db.ports[id].bridgeId;
    var removed := ListRemove(db.lists, BridgeKey(b), id);
    assert Listed(db.lists, BridgeKey(c))[p] == Once(db, c, p);
    RemoveCell(db.lists, b, id, c, p);
    AddCell(removed, bridge, id, c, p);
    MovedPorts(db, id, bridge, c, p);
  }

  /** Between the steps of a move the index names no bridge for the port, then the new one. */
  lemma MoveKeepsAgreement(db: Db, id: Oid, bridge: Oid)
    requires Agrees(db) && id in db.ports
    ensures Agrees(MovePort(db, id, bridge))
  {
    forall c, p
      ensures Listed(MovePort(db, id, bridge).lists, BridgeKey(c))[p] == Once(MovePort(db, id, bridge), c, p)
    {
      MoveCell(db, id, bridge, c, p);
    }
  }

  lemma ListedIff(m: Lists, key: Key, p: Oid)
    ensures p in Listed(m, key) <==> exists d | d in ListAt(m, key) :: d.val1 == p
  {
    var list := ListAt(m, key);
    BagMember(list, Val1Of, p);
    if d :| d in list && d.val1 == p {
      var i :| 0 <= i < |list| && list[i] == d;
      assert Val1Of(list[i]) == p;
    }
    if i :| 0 <= i < |list| && Val1Of(list[i]) == p {
      assert list[i] in list && list[i].val1 == p;
    }
  }

  lemma ListedOnBridge(db: Db, b: Oid, p: Oid)
    requires Agrees(db)
    ensures p in Listed(db.lists, BridgeKey(b)) <==> OnBridge(db, b, p)
  {
    assert Listed(db.lists, BridgeKey(b))[p] == Once(db, b, p);
  }

  /** The method's answer, under agreement: the tunnel and the bridge share a bridge port. */
  lemma TunnelConnectivity(db: Db, bridge: Oid, tunnel: Oid)
    requires Agrees(db)
    ensures (exists d | d in ListAt(db.lists, TunnelKey(tunnel)) :: OnBridge(db, bridge, d.val1))
       <==> exists p :: p in Listed(db.lists, TunnelKey(tunnel)) && p in Listed(db.lists, BridgeKey(bridge))
  {
    if d :| d in ListAt(db.lists, TunnelKey(tunnel)) && OnBridge(db, bridge, d.val1) {
      ListedIff(db.lists, TunnelKey(tunnel), d.val1);
      ListedOnBridge(db, bridge, d.val1);
    }
    if p :| p in Listed(db.lists, TunnelKey(tunnel)) && p in Listed(db.lists, BridgeKey(bridge)) {
      ListedIff(db.lists, TunnelKey(tunnel), p);
      ListedOnBridge(db, bridge, p);
    }
  }

  predicate NoEmptyList(m: Lists) {
    forall k | k in m :: m[k] != []
  }

  /** Adding an id that is not listed and removing it again restores the lists. */
  lemma RemoveUndoesAdd(m: Lists, key: Key, v: Oid)
    requires NoEmptyList(m) && v !in Listed(m, key)
    ensures ListRemove(ListAdd(m, key, v), key, v) == m
  {
    var list, d := ListAt(m, key), Data(v, 0);
    forall j | 0 <= j < |list| ensures !ApplyFilter(d, list[j], FILTER_VAL1) {
      ListedIff(m, key, list[j].val1);
      assert list[j] in list;
    }
    InsertDeleteRestores(list, d, FILTER_VAL1);
    var added := ListAdd(m, key, v);
    assert [d][1..] == [];
    assert RemoveEach(added[key], [d], FILTER_VAL1) == list;
    if key in m {
      assert ListRemove(added, key, v) == added[key := list] == m;
    } else {
      assert ListRemove(added, key, v) == added - {key} == m;
    }
  }

  /** Deleting a port undoes its creation, down to the order of every list. */
  lemma DeleteUndoesCreate(db: Db, id: Oid, info: BridgePortInfo)
    requires Agrees(db) && NoEmptyList(db.lists) && id !in db.ports && info.bridgePortId == id
    ensures DeletePort(WritePort(db, id, info), id) == db
  {
    ListedOnBridge(db, info.bridgeId, id);
    RemoveUndoesAdd(db.lists, BridgeKey(info.bridgeId), id);
    assert db.ports[id := info] - {id} == db.ports;
  }

  // ---------------------------------------------------------------- reference counts

  function Count(db: Db, kind: Member, p: Oid): nat {
    |ListAt(db.lists, MemberKey(kind, p))|
  }

  /** The VLAN members, STP ports and L2MC members of a bridge port together. */
  function Total(db: Db, p: Oid): nat {
    Count(db, VlanMember, p) + Count(db, StpPort, p) + Count(db, L2mcMember, p)
  }

  ghost predicate Conserved(db: Db) {
    forall p | p in db.ports :: db.ports[p].refCount == Total(db, p)
  }

  ghost predicate CountsFit(db: Db) {
    forall p | p in db.ports :: db.ports[p].refCount < TWO_TO_THE_32
  }

  lemma CountAfterAdd(db: Db, kind: Member, port: Oid, member: Oid, k: Member, p: Oid)
    ensures Count(AddMember(db, kind, port, member), k, p) == Count(db, k, p) + if k == kind && p == port then 1 else 0
  {
    if k != kind || p != port {
      OtherList(db.lists, MemberKey(kind, port), member, MemberKey(k, p));
    }
  }

  lemma TotalAfterAdd(db: Db, kind: Member, port: Oid, member: Oid, p: Oid)
    ensures Total(AddMember(db, kind, port, member), p) == Total(db, p) + if p == port then 1 else 0
  {
    CountAfterAdd(db, kind, port, member, VlanMember, p);
    CountAfterAdd(db, kind, port, member, StpPort, p);
    CountAfterAdd(db, kind, port, member, L2mcMember, p);
  }

  lemma CountAfterRemove(db: Db, kind: Member, port: Oid, member: Oid, k: Member, p: Oid)
    ensures Count(RemoveMember(db, kind, port, member), k, p)
         == Count(db, k, p)
            - if k == kind && p == port && member in Listed(db.lists, MemberKey(kind, port)) then 1 else 0
  {
    if k == kind && p == port {
      SizeAfterRemove(db.lists, MemberKey(kind, port), member);
    } else {
      OtherList(db.lists, MemberKey(kind, port), member, MemberKey(k, p));
    }
  }

  lemma TotalAfterRemove(db: Db, kind: Member, port: Oid, member: Oid, p: Oid)
    ensures Total(RemoveMember(db, kind, port, member), p)
         == Total(db, p) - if p == port && member in Listed(db.lists, MemberKey(kind, port)) then 1 else 0
  {
    CountAfterRemove(db, kind, port, member, VlanMember, p);
    CountAfterRemove(db, kind, port, member, StpPort, p);
    CountAfterRemove(db, kind, port, member, L2mcMember, p);
  }

  /** Adding a member keeps the count exact unless the 32-bit counter wraps around. */
  lemma AddMemberKeepsCount(db: Db, kind: Member, port: Oid, member: Oid)
    requires Conserved(db) && CountsFit(db)
    ensures Conserved(AddMember(db, kind, port, member))
       <==> (port in db.ports ==> db.ports[port].refCount + 1 < TWO_TO_THE_32)
  {
    var db' := AddMember(db, kind, port, member);
    forall p | p in db'.ports
      ensures Total(db', p) == Total(db, p) + if p == port then 1 else 0
    {
      TotalAfterAdd(db, kind, port, member, p);
    }
    if port in db.ports {
      assert db'.ports[port].refCount == Total(db', port) <==> db.ports[port].refCount + 1 < TWO_TO_THE_32;
    }
  }

  /** The unsigned decrement wraps around at zero. */
  lemma DroppedRef(db: Db, kind: Member, port: Oid, member: Oid)
    requires port in db.ports && db.ports[port].refCount < TWO_TO_THE_32
    ensures var r := db.ports[port].refCount;
            RemoveMember(db, kind, port, member).ports[port].refCount == if r == 0 then TWO_TO_THE_32 - 1 else r - 1
  {
  }

  lemma ListedHasSize(m: Lists, key: Key, v: Oid)
    requires v in Listed(m, key)
    ensures |ListAt(m, key)| > 0
  {
    ListedIff(m, key, v);
  }

  lemma ListedIsCounted(db: Db, kind: Member, port: Oid, member: Oid)
    requires member in Listed(db.lists, MemberKey(kind, port))
    ensures Total(db, port) > 0
  {
    ListedHasSize(db.lists, MemberKey(kind, port), member);
    assert Count(db, kind, port) > 0;
  }

  lemma RemovedPortCount(db: Db, kind: Member, port: Oid, member: Oid, listed: bool)
    requires Conserved(db) && CountsFit(db) && port in db.ports
    requires listed <==> member in Listed(db.lists, MemberKey(kind, port))
    ensures var db' := RemoveMember(db, kind, port, member);
            db'.ports[port].refCount == Total(db', port) <==> listed
    ensures listed ==> Total(db, port) > 0
  {
    if listed {
      ListedIsCounted(db, kind, port, member);
    }
    DroppedRef(db, kind, port, member);
    TotalAfterRemove(db, kind, port, member, port);
  }

  /** Removing keeps the count exact exactly when the member is listed; then the count was
      positive and does not wrap around. Removing an absent member drops the count all the same. */
  lemma RemoveMemberKeepsCount(db: Db, kind: Member, port: Oid, member: Oid)
    requires Conserved(db) && CountsFit(db)
    ensures Conserved(RemoveMember(db, kind, port, member))
       <==> (port in db.ports ==> member in Listed(db.lists, MemberKey(kind, port)))
    ensures port in db.ports && member in Listed(db.lists, MemberKey(kind, port)) ==> db.ports[port].refCount > 0
  {
    var db' := RemoveMember(db, kind, port, member);
    forall p | p in db'.ports && p != port
      ensures db'.ports[p].refCount == Total(db', p)
    {
      TotalAfterRemove(db, kind, port, member, p);
    }
    if port in db.ports {
      RemovedPortCount(db, kind, port, member, member in Listed(db.lists, MemberKey(kind, port)));
      assert port in db'.ports;
    }
  }

  predicate IsMemberKey(key: Key) {
    key.mapType in {BridgePortToVlanMemberList, BridgePortToStpPortList, BridgePortToL2mcMemberList}
  }

  lemma OtherKeyKeepsTotal(db: Db, key: Key, v: Oid, p: Oid)
    requires !IsMemberKey(key)
    ensures Total(db.(lists := ListAdd(db.lists, key, v)), p) == Total(db, p)
    ensures Total(db.(lists := ListRemove(db.lists, key, v)), p) == Total(db, p)
    ensures Total(db.(lists := db.lists - {key}), p) == Total(db, p)
  {
    OtherList(db.lists, key, v, MemberKey(VlanMember, p));
    OtherList(db.lists, key, v, MemberKey(StpPort, p));
    OtherList(db.lists, key, v, MemberKey(L2mcMember, p));
  }

  /** Writing a record keeps the counts exact exactly when the record brings the right count. */
  lemma WriteKeepsCount(db: Db, id: Oid, info: BridgePortInfo)
    requires Conserved(db)
    ensures Conserved(WritePort(db, id, info)) <==> info.refCount == Total(db, id)
  {
    var db' := WritePort(db, id, info);
    forall p ensures Total(db', p) == Total(db, p) {
      OtherKeyKeepsTotal(db, BridgeKey(info.bridgeId), info.bridgePortId, p);
    }
    if Conserved(db') {
      assert id in db'.ports;
    }
  }

  // ---------------------------------------------------------------- sub-ports and empty lists

  lemma WrappersKeepNoEmptyList(m: Lists, key: Key, v: Oid)
    requires NoEmptyList(m)
    ensures NoEmptyList(ListAdd(m, key, v)) && NoEmptyList(ListRemove(m, key, v)) && NoEmptyList(m - {key})
  {
  }

  predicate HoldsOne(m: Lists, key: Key)
    requires key in m
  {
    |m[key]| == 1 && m[key][0].val1 != NULL_OID
  }

  /** Every (port, vlan) key lists one bridge port, and not the null one. */
  ghost predicate SubPortsUnique(m: Lists) {
    forall port, vlan | PortVlanKey(port, vlan) in m :: HoldsOne(m, PortVlanKey(port, vlan))
  }

  /** A plain insert keeps one bridge port per key exactly when the key is new and the bridge port
      is not null. */
  lemma InsertKeepsUnique(m: Lists, port: Oid, vlan: Oid, bridgePort: Oid)
    requires SubPortsUnique(m)
    ensures SubPortsUnique(ListAdd(m, PortVlanKey(port, vlan), bridgePort))
       <==> PortVlanKey(port, vlan) !in m && bridgePort != NULL_OID
  {
    var key := PortVlanKey(port, vlan);
    var added := ListAdd(m, key, bridgePort);
    assert key in added;
    if key in m {
      assert HoldsOne(m, key);
      assert !HoldsOne(added, key);
    } else {
      assert HoldsOne(added, key) <==> bridgePort != NULL_OID;
    }
  }

  /** What callers do to the keys: plain inserts and removals of whole keys. */
  datatype SubPortOp = Insert(port: Oid, vlan: Oid, bridgePort: Oid) | Remove(port: Oid, vlan: Oid)

  function SubPortRun(m: Lists, ops: seq<SubPortOp>): Lists {
    if ops == [] then m
    else
      var before := SubPortRun(m, ops[..|ops| - 1]);
      match ops[|ops| - 1]
      case Insert(port, vlan, bridgePort) => ListAdd(before, PortVlanKey(port, vlan), bridgePort)
      case Remove(port, vlan) => before - {PortVlanKey(port, vlan)}
  }

  /** The bridge ports inserted for a port and a VLAN since the last removal. */
  function Pending(ops: seq<SubPortOp>, port: Oid, vlan: Oid): seq<Oid> {
    if ops == [] then []
    else
      var before := Pending(ops[..|ops| - 1], port, vlan);
      var op := ops[|ops| - 1];
      if op.port != port || op.vlan != vlan then before
      else match op
        case Insert(_, _, bridgePort) => before + [bridgePort]
        case Remove(_, _) => []
  }

  /** A key lists what is pending, and is present when anything is. */
  lemma {:induction false} RunListsPending(m: Lists, ops: seq<SubPortOp>, port: Oid, vlan: Oid)
    requires PortVlanKey(port, vlan) !in m
    ensures var end, key, pending := SubPortRun(m, ops), PortVlanKey(port, vlan), Pending(ops, port, vlan);
            && (key in end <==> pending != [])
            && Map(ListAt(end, key), Val1Of) == pending
  {
    if ops == [] {
    } else {
      RunListsPending(m, ops[..|ops| - 1], port, vlan);
    }
  }

  /** After any run of plain inserts and removals, the duplicate check answers whether the key is
      present exactly when at most one bridge port was inserted since the last removal, and that
      one is not null. */
  lemma DuplicateCheckExact(db: Db, ops: seq<SubPortOp>, port: Oid, vlan: Oid)
    requires PortVlanKey(port, vlan) !in db.lists
    ensures var end, pending := db.(lists := SubPortRun(db.lists, ops)), Pending(ops, port, vlan);
            (SubPortDuplicate(end, port, vlan) <==> PortVlanKey(port, vlan) in end.lists)
            <==> pending == [] || (|pending| == 1 && pending[0] != NULL_OID)
  {
    RunListsPending(db.lists, ops, port, vlan);
    var list := ListAt(SubPortRun(db.lists, ops), PortVlanKey(port, vlan));
    assert list != [] ==> Map(list, Val1Of)[0] == list[0].val1;
  }

  /** A second insert hides the first one: the key lists two bridge ports and counts as free. */
  lemma TwoEntriesCountAsFree()
    ensures var ops := [Insert(1, 2, 3), Insert(1, 2, 4)];
            var end := Db(SubPortRun(map[], ops), map[]);
            && end.lists[PortVlanKey(1, 2)] == [Data(3, 0), Data(4, 0)]
            && !SubPortDuplicate(end, 1, 2)
  {
    var ops := [Insert(1, 2, 3), Insert(1, 2, 4)];
    assert ops[..1] == [Insert(1, 2, 3)] && ops[..1][..0] == [];
    assert SubPortRun(map[], ops[..1]) == ListAdd(map[], PortVlanKey(1, 2), 3);
  }

  /** A guarded insert: only when the duplicate check says no. */
  function AddSubPort(db: Db, port: Oid, vlan: Oid, bridgePort: Oid): Db {
    if SubPortDuplicate(db, port, vlan) then db
    else db.(lists := ListAdd(db.lists, PortVlanKey(port, vlan), bridgePort))
  }

  /** A guarded insert keeps one bridge port per key exactly when it is refused or the bridge port
      is not null. */
  lemma AddSubPortKeepsUnique(db: Db, port: Oid, vlan: Oid, bridgePort: Oid)
    requires SubPortsUnique(db.lists)
    ensures SubPortsUnique(AddSubPort(db, port, vlan, bridgePort).lists)
       <==> PortVlanKey(port, vlan) in db.lists || bridgePort != NULL_OID
  {
    var key := PortVlanKey(port, vlan);
    assert key in db.lists ==> HoldsOne(db.lists, key);
    InsertKeepsUnique(db.lists, port, vlan, bridgePort);
  }

  // ---------------------------------------------------------------- what careless callers break

  function OnePort(id: Oid, info: BridgePortInfo): Db {
    WritePort(Db(map[], map[]), id, info)
  }

  lemma EmptyAgrees()
    ensures Agrees(Db(map[], map[]))
  {
  }

  /** Writing a port twice lists it twice. */
  lemma OverwriteListsTwice(id: Oid, info: BridgePortInfo)
    requires info.bridgePortId == id
    ensures Agrees(OnePort(id, info)) && !Agrees(WritePort(OnePort(id, info), id, info))
  {
    EmptyAgrees();
    WriteKeepsAgreement(Db(map[], map[]), id, info);
    WriteKeepsAgreement(OnePort(id, info), id, info);
  }

  /** Changing a port's bridge by the attribute alone leaves it listed under the old one. */
  lemma AttributeAloneMisplaces(id: Oid, info: BridgePortInfo, bridge: Oid)
    requires info.bridgePortId == id && info.bridgeId != bridge
    ensures Agrees(OnePort(id, info)) && !Agrees(SetAttr(OnePort(id, info), id, BridgeId(bridge)))
  {
    EmptyAgrees();
    WriteKeepsAgreement(Db(map[], map[]), id, info);
    AttrKeepsAgreement(OnePort(id, info), id, BridgeId(bridge));
  }

  /** Removing a member that was never added takes the count of a fresh port below zero, where it
      wraps around. */
  lemma AbsentMemberUnderflows(id: Oid, info: BridgePortInfo, kind: Member, member: Oid)
    requires info.refCount == 0
    ensures RemoveMember(OnePort(id, info), kind, id, member).ports[id].refCount == TWO_TO_THE_32 - 1
  {
    DroppedRef(OnePort(id, info), kind, id, member);
  }

  // ---------------------------------------------------------------- whole runs

  datatype Owner = Lag | Tunnel

  function OwnerKey(owner: Owner, id: Oid): Key {
    match owner
    case Lag => LagKey(id)
    case Tunnel => TunnelKey(id)
  }

  datatype Op =
    | Create(id: Oid, info: BridgePortInfo)
    | Delete(id: Oid)
    | Move(id: Oid, bridge: Oid)
    | Attach(kind: Member, port: Oid, member: Oid)
    | Detach(kind: Member, port: Oid, member: Oid)
    | Set(id: Oid, attr: PortAttr)
    | CreateSubPort(port: Oid, vlan: Oid, bridgePort: Oid)
    | DeleteSubPort(port: Oid, vlan: Oid)
    | Link(owner: Owner, ownerId: Oid, port: Oid)
    | Unlink(owner: Owner, ownerId: Oid, port: Oid)

  /** What a caller has to respect; every condition can be read off the tables beforehand. */
  ghost predicate Legal(db: Db, op: Op) {
    match op
    case Create(id, info) => id !in db.ports && info.bridgePortId == id && info.refCount == 0
    case Delete(id) => id in db.ports ==> db.ports[id].refCount == 0
    case Move(id, _) => id in db.ports
    case Attach(_, port, _) => port in db.ports && db.ports[port].refCount + 1 < TWO_TO_THE_32
    case Detach(kind, port, member) => port in db.ports && member in Listed(db.lists, MemberKey(kind, port))
    case Set(_, attr) => !attr.BridgeId?
    case CreateSubPort(_, _, bridgePort) => bridgePort != NULL_OID
    case _ => true
  }

  ghost function Step(db: Db, op: Op): Db
    requires Legal(db, op)
  {
    match op
    case Create(id, info) => WritePort(db, id, info)
    case Delete(id) => DeletePort(db, id)
    case Move(id, bridge) => MovePort(db, id, bridge)
    case Attach(kind, port, member) => AddMember(db, kind, port, member)
    case Detach(kind, port, member) => RemoveMember(db, kind, port, member)
    case Set(id, attr) => SetAttr(db, id, attr)
    case CreateSubPort(port, vlan, bridgePort) => AddSubPort(db, port, vlan, bridgePort)
    case DeleteSubPort(port, vlan) => db.(lists := db.lists - {PortVlanKey(port, vlan)})
    case Link(owner, id, port) => db.(lists := ListAdd(db.lists, OwnerKey(owner, id), port))
    case Unlink(owner, id, port) => db.(lists := ListRemove(db.lists, OwnerKey(owner, id), port))
  }

  /** A run from one state to another: every operation is legal where it happens. */
  ghost predicate Runs(db: Db, ops: seq<Op>, end: Db)
    decreases |ops|
  {
    if ops == [] then db == end else Legal(db, ops[0]) && Runs(Step(db, ops[0]), ops[1..], end)
  }

  /** Ports that are not cached have no members. */
  ghost predicate NoOrphans(db: Db) {
    forall p | p !in db.ports :: Total(db, p) == 0
  }

  ghost predicate CountsInv(db: Db) {
    Conserved(db) && CountsFit(db) && NoOrphans(db)
  }

  ghost predicate ListsInv(m: Lists) {
    NoEmptyList(m) && SubPortsUnique(m)
  }

  ghost predicate Inv(db: Db) {
    && Agrees(db)
    && CountsInv(db)
    && ListsInv(db.lists)
  }

  lemma OtherKeyKeepsAgreement(db: Db, key: Key, v: Oid, ports: map<Oid, BridgePortInfo>)
    requires Agrees(db) && key.mapType != BridgeToBridgePortList
    requires ports.Keys == db.ports.Keys && forall p | p in ports :: ports[p].bridgeId == db.ports[p].bridgeId
    ensures Agrees(Db(ListAdd(db.lists, key, v), ports))
    ensures Agrees(Db(ListRemove(db.lists, key, v), ports))
  {
    var added, removed := Db(ListAdd(db.lists, key, v), ports), Db(ListRemove(db.lists, key, v), ports);
    forall b, p
      ensures Listed(added.lists, BridgeKey(b))[p] == Once(added, b, p)
      ensures Listed(removed.lists, BridgeKey(b))[p] == Once(removed, b, p)
    {
      OtherList(db.lists, key, v, BridgeKey(b));
      assert Listed(db.lists, BridgeKey(b))[p] == Once(db, b, p);
    }
  }

  lemma SubPortsKeepAgreement(db: Db, port: Oid, vlan: Oid)
    requires Agrees(db)
    ensures Agrees(db.(lists := db.lists - {PortVlanKey(port, vlan)}))
  {
    var db' := db.(lists := db.lists - {PortVlanKey(port, vlan)});
    forall b, p ensures Listed(db'.lists, BridgeKey(b))[p] == Once(db', b, p) {
      assert ListAt(db'.lists, BridgeKey(b)) == ListAt(db.lists, BridgeKey(b));
      assert Listed(db.lists, BridgeKey(b))[p] == Once(db, b, p);
    }
  }

  lemma StepKeepsAgreement(db: Db, op: Op)
    requires Agrees(db) && Legal(db, op)
    ensures Agrees(Step(db, op))
  {
    match op
    case Create(id, info) => WriteKeepsAgreement(db, id, info);
    case Delete(id) => DeleteKeepsAgreement(db, id);
    case Move(id, bridge) => MoveKeepsAgreement(db, id, bridge);
    case Set(id, attr) => AttrKeepsAgreement(db, id, attr);
    case Attach(kind, port, member) =>
      OtherKeyKeepsAgreement(db, MemberKey(kind, port), member, AddRef(db.ports, port));
    case Detach(kind, port, member) =>
      OtherKeyKeepsAgreement(db, MemberKey(kind, port), member, DropRef(db.ports, port));
    case Link(owner, id, port) => OtherKeyKeepsAgreement(db, OwnerKey(owner, id), port, db.ports);
    case Unlink(owner, id, port) => OtherKeyKeepsAgreement(db, OwnerKey(owner, id), port, db.ports);
    case CreateSubPort(port, vlan, bridgePort) =>
      OtherKeyKeepsAgreement(db, PortVlanKey(port, vlan), bridgePort, db.ports);
    case DeleteSubPort(port, vlan) => SubPortsKeepAgreement(db, port, vlan);
  }

  lemma SameTotals(db: Db, db': Db)
    requires CountsInv(db) && forall p :: Total(db', p) == Total(db, p)
    requires forall p | p in db'.ports :: db'.ports[p].refCount == if p in db.ports then db.ports[p].refCount else 0
    requires forall p | p in db.ports && p !in db'.ports :: db.ports[p].refCount == 0
    ensures CountsInv(db')
  {
  }

  lemma AttachKeepsCounts(db: Db, kind: Member, port: Oid, member: Oid)
    requires CountsInv(db) && port in db.ports
    requires db.ports[port].refCount + 1 < TWO_TO_THE_32
    ensures CountsInv(AddMember(db, kind, port, member))
  {
    AddMemberKeepsCount(db, kind, port, member);
    forall p | p !in db.ports ensures Total(AddMember(db, kind, port, member), p) == Total(db, p) {
      TotalAfterAdd(db, kind, port, member, p);
    }
  }

  lemma DetachKeepsCounts(db: Db, kind: Member, port: Oid, member: Oid)
    requires CountsInv(db) && port in db.ports && member in Listed(db.lists, MemberKey(kind, port))
    ensures CountsInv(RemoveMember(db, kind, port, member))
  {
    RemoveMemberKeepsCount(db, kind, port, member);
    forall p | p !in db.ports ensures Total(RemoveMember(db, kind, port, member), p) == Total(db, p) {
      TotalAfterRemove(db, kind, port, member, p);
    }
  }

  lemma MoveKeepsCounts(db: Db, id: Oid, bridge: Oid)
    requires CountsInv(db) && id in db.ports
    ensures CountsInv(MovePort(db, id, bridge))
  {
    var removed := db.(lists := ListRemove(db.lists, BridgeKey(db.ports[id].bridgeId), id));
    forall p ensures Total(MovePort(db, id, bridge), p) == Total(db, p) {
      OtherKeyKeepsTotal(db, BridgeKey(db.ports[id].bridgeId), id, p);
      OtherKeyKeepsTotal(removed, BridgeKey(bridge), id, p);
    }
    SameTotals(db, MovePort(db, id, bridge));
  }

  lemma CreateKeepsCounts(db: Db, id: Oid, info: BridgePortInfo)
    requires CountsInv(db) && id !in db.ports && info.refCount == 0
    ensures CountsInv(WritePort(db, id, info))
  {
    forall p ensures Total(WritePort(db, id, info), p) == Total(db, p) {
      OtherKeyKeepsTotal(db, BridgeKey(info.bridgeId), info.bridgePortId, p);
    }
    SameTotals(db, WritePort(db, id, info));
  }

  lemma DeleteKeepsCounts(db: Db, id: Oid)
    requires CountsInv(db) && id in db.ports && db.ports[id].refCount == 0
    ensures CountsInv(DeletePort(db, id))
  {
    forall p ensures Total(DeletePort(db, id), p) == Total(db, p) {
      OtherKeyKeepsTotal(db, BridgeKey(db.ports[id].bridgeId), id, p);
    }
    SameTotals(db, DeletePort(db, id));
  }

  lemma ListsOnlyKeepCounts(db: Db, key: Key, v: Oid)
    requires CountsInv(db) && !IsMemberKey(key)
    ensures CountsInv(db.(lists := ListAdd(db.lists, key, v)))
    ensures CountsInv(db.(lists := ListRemove(db.lists, key, v)))
    ensures CountsInv(db.(lists := db.lists - {key}))
  {
    forall p
      ensures Total(db.(lists := ListAdd(db.lists, key, v)), p) == Total(db, p)
      ensures Total(db.(lists := ListRemove(db.lists, key, v)), p) == Total(db, p)
      ensures Total(db.(lists := db.lists - {key}), p) == Total(db, p)
    {
      OtherKeyKeepsTotal(db, key, v, p);
    }
  }

  lemma SetKeepsCounts(db: Db, id: Oid, attr: PortAttr)
    requires CountsInv(db)
    ensures CountsInv(SetAttr(db, id, attr))
  {
    var db' := SetAttr(db, id, attr);
    forall p ensures Total(db', p) == Total(db, p) {
    }
    SameTotals(db, db');
  }

  lemma StepKeepsCounts(db: Db, op: Op)
    requires CountsInv(db) && Legal(db, op)
    ensures CountsInv(Step(db, op))
  {
    match op
    case Create(id, info) => CreateKeepsCounts(db, id, info);
    case Delete(id) => if id in db.ports { DeleteKeepsCounts(db, id); }
    case Move(id, bridge) => MoveKeepsCounts(db, id, bridge);
    case Attach(kind, port, member) => AttachKeepsCounts(db, kind, port, member);
    case Detach(kind, port, member) => DetachKeepsCounts(db, kind, port, member);
    case Set(id, attr) => SetKeepsCounts(db, id, attr);
    case CreateSubPort(port, vlan, bridgePort) => ListsOnlyKeepCounts(db, PortVlanKey(port, vlan), bridgePort);
    case DeleteSubPort(port, vlan) => ListsOnlyKeepCounts(db, PortVlanKey(port, vlan), NULL_OID);
    case Link(owner, id, port) => ListsOnlyKeepCounts(db, OwnerKey(owner, id), port);
    case Unlink(owner, id, port) => ListsOnlyKeepCounts(db, OwnerKey(owner, id), port);
  }

  lemma OtherKeysKeepLists(m: Lists, key: Key, v: Oid)
    requires ListsInv(m) && key.mapType != PortVlanToBridgePortList
    ensures ListsInv(ListAdd(m, key, v)) && ListsInv(ListRemove(m, key, v))
  {
    WrappersKeepNoEmptyList(m, key, v);
  }

  lemma StepKeepsLists(db: Db, op: Op)
    requires ListsInv(db.lists) && Legal(db, op)
    ensures ListsInv(Step(db, op).lists)
  {
    match op
    case Create(id, info) => OtherKeysKeepLists(db.lists, BridgeKey(info.bridgeId), info.bridgePortId);
    case Delete(id) =>
      if id in db.ports {
        OtherKeysKeepLists(db.lists, BridgeKey(db.ports[id].bridgeId), id);
      }
    case Move(id, bridge) =>
      OtherKeysKeepLists(db.lists, BridgeKey(db.ports[id].bridgeId), id);
      OtherKeysKeepLists(ListRemove(db.lists, BridgeKey(db.ports[id].bridgeId), id), BridgeKey(bridge), id);
    case Attach(kind, port, member) => OtherKeysKeepLists(db.lists, MemberKey(kind, port), member);
    case Detach(kind, port, member) => OtherKeysKeepLists(db.lists, MemberKey(kind, port), member);
    case Set(_, _) =>
    case CreateSubPort(port, vlan, bridgePort) =>
      AddSubPortKeepsUnique(db, port, vlan, bridgePort);
      WrappersKeepNoEmptyList(db.lists, PortVlanKey(port, vlan), bridgePort);
    case DeleteSubPort(port, vlan) =>
    case Link(owner, id, port) => OtherKeysKeepLists(db.lists, OwnerKey(owner, id), port);
    case Unlink(owner, id, port) => OtherKeysKeepLists(db.lists, OwnerKey(owner, id), port);
  }

  lemma StepKeepsInv(db: Db, op: Op)
    requires Inv(db) && Legal(db, op)
    ensures Inv(Step(db, op))
  {
    StepKeepsAgreement(db, op);
    StepKeepsCounts(db, op);
    StepKeepsLists(db, op);
  }

  lemma {:induction false} RunKeepsInv(db: Db, ops: seq<Op>, end: Db)
    requires Inv(db) && Runs(db, ops, end)
    ensures Inv(end)
    decreases |ops|
  {
    if ops == [] {
    } else {
      StepKeepsInv(db, ops[0]);
      RunKeepsInv(Step(db, ops[0]), ops[1..], end);
    }
  }

  /** In every state reached from empty tables: every bridge lists exactly its cached ports, every
      cached port's reference count is the number of its members, no key holds an empty list, and
      the duplicate check answers whether the (port, vlan) key is present. */
  lemma EveryRun(ops: seq<Op>, end: Db)
    requires Runs(Db(map[], map[]), ops, end)
    ensures forall b :: Listed(end.lists, BridgeKey(b)) == multiset(PortsOf(end, b))
    ensures forall p | p in end.ports :: end.ports[p].refCount == Total(end, p)
    ensures NoEmptyList(end.lists)
    ensures forall port, vlan :: SubPortDuplicate(end, port, vlan) <==> PortVlanKey(port, vlan) in end.lists
    ensures forall port, vlan :: |ListAt(end.lists, PortVlanKey(port, vlan))| <= 1
  {
    RunKeepsInv(Db(map[], map[]), ops, end);
    forall b ensures Listed(end.lists, BridgeKey(b)) == multiset(PortsOf(end, b)) {
      AgreesMeans(end, b);
    }
    forall port, vlan
      ensures SubPortDuplicate(end, port, vlan) <==> PortVlanKey(port, vlan) in end.lists
      ensures |ListAt(end.lists, PortVlanKey(port, vlan))| <= 1
    {
      assert PortVlanKey(port, vlan) in end.lists ==> HoldsOne(end.lists, PortVlanKey(port, vlan));
    }
  }
}
