/** What a run of the bridge database leaves behind, told from the operations alone. */
module BridgeHistory {
  import opened SaiTypes
  import opened SaiMap
  import opened BridgeDb
  import opened BridgeRuns

  // ---------------------------------------------------------------- what a read gives back

  /** Writing a record caches that very record under the id, and every other id as before. */
  lemma WriteReadsBack(db: Db, id: Oid, info: BridgePortInfo)
    ensures var written := WritePort(db, id, info).ports;
            && id in written && written[id] == info
            && forall p | p != id :: (p in written <==> p in db.ports) && (p in written ==> written[p] == db.ports[p])
  {
  }

  /** Deleting a record takes its id out, and caches every other id as before. */
  lemma DeleteTakesOut(db: Db, id: Oid)
    ensures var deleted := DeletePort(db, id).ports;
            && id !in deleted
            && forall p | p != id :: (p in deleted <==> p in db.ports) && (p in deleted ==> deleted[p] == db.ports[p])
  {
  }

  /** The field that an attribute names reads back, and every other field stays. */
  lemma AttrReadsBack(info: BridgePortInfo, attr: PortAttr)
    ensures var r := WithAttr(info, attr);
            && r.fdbLearnMode == (if attr.FdbLearningMode? then attr.mode else info.fdbLearnMode)
            && r.maxLearned == (if attr.MaxLearnedAddresses? then attr.max else info.maxLearned)
            && r.violationAction == (if attr.LimitViolationAction? then attr.action else info.violationAction)
            && r.adminState == (if attr.AdminState? then attr.up else info.adminState)
            && r.ingressFiltering == (if attr.IngressFiltering? then attr.on else info.ingressFiltering)
            && r.bridgeId == (if attr.BridgeId? then attr.bridge else info.bridgeId)
            && r.portType == info.portType && r.bridgePortId == info.bridgePortId && r.refCount == info.refCount
  {
  }

  function Cached(db: Db, id: Oid): Option<BridgePortInfo> {
    if id in db.ports then Some(db.ports[id]) else None
  }

  /** What one operation does to the record that is read under an id. */
  function RecordStep(r: Option<BridgePortInfo>, op: Op, id: Oid): Option<BridgePortInfo> {
    match op
    case Create(p, info) => if p == id then Some(info) else r
    case Delete(p) => if p == id then None else r
    case Move(p, bridge) => if p == id && r.Some? then Some(r.value.(bridgeId := bridge)) else r
    case Attach(_, p, _) =>
      if p == id && r.Some? then Some(r.value.(refCount := r.value.refCount + 1)) else r
    case Detach(_, p, _) =>
      if p == id && r.Some? && r.value.refCount > 0 then Some(r.value.(refCount := r.value.refCount - 1)) else r
    case Set(p, attr) =>
      if p != id || r.None? then r
      else (match attr
            case FdbLearningMode(mode) => Some(r.value.(fdbLearnMode := mode))
            case MaxLearnedAddresses(max) => Some(r.value.(maxLearned := max))
            case LimitViolationAction(action) => Some(r.value.(violationAction := action))
            case AdminState(up) => Some(r.value.(adminState := up))
            case IngressFiltering(on) => Some(r.value.(ingressFiltering := on))
            case _ => r)
    case _ => r
  }

  /** The record that a run leaves under an id. */
  function RecordAfter(r: Option<BridgePortInfo>, ops: seq<Op>, id: Oid): Option<BridgePortInfo>
    decreases |ops|
  {
    if ops == [] then r else RecordAfter(RecordStep(r, ops[0], id), ops[1..], id)
  }

  lemma MoveRecords(db: Db, p: Oid, bridge: Oid, id: Oid)
    requires p in db.ports
    ensures Cached(MovePort(db, p, bridge), id) == RecordStep(Cached(db, id), Move(p, bridge), id)
  {
  }

  lemma AttachRecords(db: Db, kind: Member, port: Oid, member: Oid, id: Oid)
    requires port in db.ports && db.ports[port].refCount + 1 < TWO_TO_THE_32
    ensures Cached(AddMember(db, kind, port, member), id) == RecordStep(Cached(db, id), Attach(kind, port, member), id)
  {
  }

  lemma DetachRecords(db: Db, kind: Member, port: Oid, member: Oid, id: Oid)
    requires port in db.ports && 0 < db.ports[port].refCount < TWO_TO_THE_32
    ensures Cached(RemoveMember(db, kind, port, member), id) == RecordStep(Cached(db, id), Detach(kind, port, member), id)
  {
    DroppedRef(db, kind, port, member);
  }

  lemma SetRecords(db: Db, p: Oid, attr: PortAttr, id: Oid)
    requires !attr.BridgeId?
    ensures Cached(SetAttr(db, p, attr), id) == RecordStep(Cached(db, id), Set(p, attr), id)
  {
    if p == id && id in db.ports {
      AttrReadsBack(db.ports[id], attr);
    }
  }

  lemma DetachIsCounted(db: Db, kind: Member, port: Oid, member: Oid)
    requires Inv(db) && Legal(db, Detach(kind, port, member))
    ensures port in db.ports && 0 < db.ports[port].refCount < TWO_TO_THE_32
  {
    RemoveMemberKeepsCount(db, kind, port, member);
  }

  lemma StepRecords(db: Db, op: Op, id: Oid)
    requires Inv(db) && Legal(db, op)
    ensures Cached(Step(db, op), id) == RecordStep(Cached(db, id), op, id)
  {
    match op
    case Create(p, info) => WriteReadsBack(db, p, info);
    case Delete(p) => DeleteTakesOut(db, p);
    case Move(p, bridge) => MoveRecords(db, p, bridge, id);
    case Attach(kind, port, member) => AttachRecords(db, kind, port, member, id);
    case Detach(kind, port, member) =>
      DetachIsCounted(db, kind, port, member);
      DetachRecords(db, kind, port, member, id);
    case Set(p, attr) => SetRecords(db, p, attr, id);
    case _ =>
  }

  lemma {:induction false} RunRecords(db: Db, ops: seq<Op>, end: Db, id: Oid)
    requires Inv(db) && Runs(db, ops, end)
    ensures Cached(end, id) == RecordAfter(Cached(db, id), ops, id)
    decreases |ops|
  {
    if ops == [] {
    } else {
      StepRecords(db, ops[0], id);
      StepKeepsInv(db, ops[0]);
      RunRecords(Step(db, ops[0]), ops[1..], end, id);
    }
  }

  /** After any run, what is read under an id is the record last created under it, with the changes
      made since by the moves, attributes and members that name it, or nothing if it was deleted. */
  lemma ReadsBackInEveryRun(ops: seq<Op>, end: Db, id: Oid)
    requires Runs(Db(map[], map[]), ops, end)
    ensures Cached(end, id) == RecordAfter(None, ops, id)
  {
    RunRecords(Db(map[], map[]), ops, end, id);
  }

  // ---------------------------------------------------------------- what a list holds

  /** The lists by what they are for. */
  datatype View =
    | PortsOfBridge(bridge: Oid)
    | PortsOfOwner(owner: Owner, ownerId: Oid)
    | MembersOf(kind: Member, port: Oid)
    | SubPortOf(port: Oid, vlan: Oid)

  function ViewKey(view: View): Key {
    match view
    case PortsOfBridge(bridge) => BridgeKey(bridge)
    case PortsOfOwner(owner, id) => OwnerKey(owner, id)
    case MembersOf(kind, port) => MemberKey(kind, port)
    case SubPortOf(port, vlan) => PortVlanKey(port, vlan)
  }

  /** No two lists share a key. */
  lemma KeysApart(v: View, w: View)
    ensures ViewKey(v) == ViewKey(w) <==> v == w
  {
  }

  /** The list without the first occurrence of an id. */
  function Drop(list: seq<Oid>, v: Oid): seq<Oid> {
    if list == [] then [] else if list[0] == v then list[1..] else [list[0]] + Drop(list[1..], v)
  }

  /** What one operation does to a list of ids. */
  function ListStep(list: seq<Oid>, op: Op, view: View): seq<Oid> {
    match op
    case Create(id, info) => if view == PortsOfBridge(info.bridgeId) then list + [id] else list
    case Delete(id) => if view.PortsOfBridge? then Drop(list, id) else list
    case Move(id, bridge) =>
      if !view.PortsOfBridge? then list
      else if view.bridge == bridge then Drop(list, id) + [id]
      else Drop(list, id)
    case Attach(kind, port, member) => if view == MembersOf(kind, port) then list + [member] else list
    case Detach(kind, port, member) => if view == MembersOf(kind, port) then Drop(list, member) else list
    case Link(owner, id, port) => if view == PortsOfOwner(owner, id) then list + [port] else list
    case Unlink(owner, id, port) => if view == PortsOfOwner(owner, id) then Drop(list, port) else list
    case CreateSubPort(port, vlan, bridgePort) =>
      if view == SubPortOf(port, vlan) && list == [] then [bridgePort] else list
    case DeleteSubPort(port, vlan) => if view == SubPortOf(port, vlan) then [] else list
    case Set(_, _) => list
  }

  /** The list that a run leaves. */
  function ListAfter(list: seq<Oid>, ops: seq<Op>, view: View): seq<Oid>
    decreases |ops|
  {
    if ops == [] then list else ListAfter(ListStep(list, ops[0], view), ops[1..], view)
  }

  /** The ids under a key, in order. */
  function Ids(m: Lists, key: Key): seq<Oid> {
    Map(ListAt(m, key), Val1Of)
  }

  lemma {:induction false} DropAt(list: seq<Oid>, v: Oid, k: nat)
    requires k < |list| && list[k] == v && v !in list[..k]
    ensures Drop(list, v) == list[..k] + list[k + 1..]
  {
    if k == 0 {
    } else {
      assert list[1..][..k - 1] == list[..k][1..];
      assert list[0] in list[..k];
      DropAt(list[1..], v, k - 1);
      assert list[1..][k..] == list[k + 1..];
      assert [list[0]] + (list[1..][..k - 1] + list[1..][k..]) == list[..k] + list[k + 1..];
    }
  }

  lemma {:induction false} DropAbsent(list: seq<Oid>, v: Oid)
    requires v !in list
    ensures Drop(list, v) == list
  {
    if list == [] {
    } else {
      DropAbsent(list[1..], v);
    }
  }

  lemma IdsWithoutFirst(list: seq<Data>, v: Oid)
    ensures Map(RemoveFirst(list, Data(v, 0), FILTER_VAL1), Val1Of) == Drop(Map(list, Val1Of), v)
  {
    var ids := Map(list, Val1Of);
    var k := FirstMatch(list, Data(v, 0), FILTER_VAL1, 0);
    if k < |list| {
      assert forall j | 0 <= j < k :: ids[..k][j] == list[j].val1;
      DropAt(ids, v, k);
      assert Map(list[..k] + list[k + 1..], Val1Of) == ids[..k] + ids[k + 1..];
    } else {
      assert forall j | 0 <= j < |ids| :: ids[j] == list[j].val1;
      DropAbsent(ids, v);
    }
  }

  lemma IdsAfterAdd(m: Lists, key: Key, v: Oid, k: Key)
    ensures Ids(ListAdd(m, key, v), k) == Ids(m, k) + if k == key then [v] else []
  {
    if k == key {
      assert Map(ListAt(m, k) + [Data(v, 0)], Val1Of) == Map(ListAt(m, k), Val1Of) + [v];
    } else {
      OtherList(m, key, v, k);
    }
  }

  lemma IdsAfterRemove(m: Lists, key: Key, v: Oid, k: Key)
    ensures Ids(ListRemove(m, key, v), k) == if k == key then Drop(Ids(m, k), v) else Ids(m, k)
  {
    if k == key {
      ListAfterRemove(m, key, v);
      IdsWithoutFirst(ListAt(m, key), v);
    } else {
      OtherList(m, key, v, k);
    }
  }

  /** A port stands in no list of another bridge, so dropping it there changes nothing. */
  lemma DropElsewhere(db: Db, id: Oid, b: Oid)
    requires Agrees(db) && !OnBridge(db, b, id)
    ensures Drop(Ids(db.lists, BridgeKey(b)), id) == Ids(db.lists, BridgeKey(b))
  {
    ListedOnBridge(db, b, id);
    assert id !in Ids(db.lists, BridgeKey(b));
    DropAbsent(Ids(db.lists, BridgeKey(b)), id);
  }

  lemma StepListsOfBridges(db: Db, op: Op, b: Oid)
    requires Inv(db) && Legal(db, op) && (op.Create? || op.Delete? || op.Move?)
    ensures Ids(Step(db, op).lists, BridgeKey(b)) == ListStep(Ids(db.lists, BridgeKey(b)), op, PortsOfBridge(b))
  {
    if op.Create? {
      IdsAfterAdd(db.lists, BridgeKey(op.info.bridgeId), op.info.bridgePortId, BridgeKey(b));
    } else {
      if !OnBridge(db, b, op.id) {
        DropElsewhere(db, op.id, b);
      }
      if op.id in db.ports {
        var former := BridgeKey(db.ports[op.id].bridgeId);
        IdsAfterRemove(db.lists, former, op.id, BridgeKey(b));
        if op.Move? {
          IdsAfterAdd(ListRemove(db.lists, former, op.id), BridgeKey(op.bridge), op.id, BridgeKey(b));
        }
      }
    }
  }

  /** The operations on bridge ports touch the lists of bridges only. */
  lemma OtherKindsStay(db: Db, op: Op, k: Key)
    requires Legal(db, op) && (op.Create? || op.Delete? || op.Move?) && k.mapType != BridgeToBridgePortList
    ensures ListAt(Step(db, op).lists, k) == ListAt(db.lists, k)
  {
    if op.Create? {
      OtherList(db.lists, BridgeKey(op.info.bridgeId), op.info.bridgePortId, k);
    } else if op.id in db.ports {
      var former := BridgeKey(db.ports[op.id].bridgeId);
      OtherList(db.lists, former, op.id, k);
      if op.Move? {
        OtherList(ListRemove(db.lists, former, op.id), BridgeKey(op.bridge), op.id, k);
      }
    }
  }

  lemma StepSubPort(db: Db, port: Oid, vlan: Oid, bridgePort: Oid, view: View)
    requires Inv(db) && bridgePort != NULL_OID
    ensures Ids(AddSubPort(db, port, vlan, bridgePort).lists, ViewKey(view))
         == ListStep(Ids(db.lists, ViewKey(view)), CreateSubPort(port, vlan, bridgePort), view)
  {
    var key := PortVlanKey(port, vlan);
    KeysApart(view, SubPortOf(port, vlan));
    IdsAfterAdd(db.lists, key, bridgePort, ViewKey(view));
    assert key in db.lists ==> HoldsOne(db.lists, key);
  }

  lemma StepMembers(db: Db, op: Op, view: View)
    requires Legal(db, op) && (op.Attach? || op.Detach?)
    ensures Ids(Step(db, op).lists, ViewKey(view)) == ListStep(Ids(db.lists, ViewKey(view)), op, view)
  {
    KeysApart(view, MembersOf(op.kind, op.port));
    IdsAfterAdd(db.lists, MemberKey(op.kind, op.port), op.member, ViewKey(view));
    IdsAfterRemove(db.lists, MemberKey(op.kind, op.port), op.member, ViewKey(view));
  }

  lemma StepOwners(db: Db, op: Op, view: View)
    requires Legal(db, op) && (op.Link? || op.Unlink?)
    ensures Ids(Step(db, op).lists, ViewKey(view)) == ListStep(Ids(db.lists, ViewKey(view)), op, view)
  {
    KeysApart(view, PortsOfOwner(op.owner, op.ownerId));
    IdsAfterAdd(db.lists, OwnerKey(op.owner, op.ownerId), op.port, ViewKey(view));
    IdsAfterRemove(db.lists, OwnerKey(op.owner, op.ownerId), op.port, ViewKey(view));
  }

  lemma StepDeleteSubPort(db: Db, port: Oid, vlan: Oid, view: View)
    ensures Ids(db.lists - {PortVlanKey(port, vlan)}, ViewKey(view))
         == ListStep(Ids(db.lists, ViewKey(view)), DeleteSubPort(port, vlan), view)
  {
    KeysApart(view, SubPortOf(port, vlan));
  }

  lemma StepLists(db: Db, op: Op, view: View)
    requires Inv(db) && Legal(db, op)
    ensures Ids(Step(db, op).lists, ViewKey(view)) == ListStep(Ids(db.lists, ViewKey(view)), op, view)
  {
    if op.Attach? || op.Detach? {
      StepMembers(db, op, view);
    } else if op.Link? || op.Unlink? {
      StepOwners(db, op, view);
    } else if op.CreateSubPort? {
      StepSubPort(db, op.port, op.vlan, op.bridgePort, view);
    } else if op.DeleteSubPort? {
      StepDeleteSubPort(db, op.port, op.vlan, view);
    } else if op.Set? {
    } else if view.PortsOfBridge? {
      StepListsOfBridges(db, op, view.bridge);
    } else {
      OtherKindsStay(db, op, ViewKey(view));
    }
  }

  lemma {:induction false} RunLists(db: Db, ops: seq<Op>, end: Db, view: View)
    requires Inv(db) && Runs(db, ops, end)
    ensures Ids(end.lists, ViewKey(view)) == ListAfter(Ids(db.lists, ViewKey(view)), ops, view)
    decreases |ops|
  {
    if ops == [] {
    } else {
      StepLists(db, ops[0], view);
      StepKeepsInv(db, ops[0]);
      RunLists(Step(db, ops[0]), ops[1..], end, view);
    }
  }

  /** After any run every list holds, in order, what its operations put into it and did not take out
      again: a bridge its ports in the order in which they came to it, a LAG or a tunnel what was
      linked to it, a port its members of each kind, a port and a VLAN their sub-port. */
  lemma ListsInEveryRun(ops: seq<Op>, end: Db, view: View)
    requires Runs(Db(map[], map[]), ops, end)
    ensures Ids(end.lists, ViewKey(view)) == ListAfter([], ops, view)
  {
    RunLists(Db(map[], map[]), ops, end, view);
  }
}
