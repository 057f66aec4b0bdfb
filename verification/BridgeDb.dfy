/** The bridge port cache, its reverse index bridge -> ports, and the reference counts. */
module BridgeDb {
  import opened SaiTypes
  import opened SaiMap

  datatype BridgePortType = PlainPort | SubPort | RouterPort | TunnelPort

  datatype BridgePortInfo = BridgePortInfo(
    portType: BridgePortType,
    bridgePortId: Oid,
    bridgeId: Oid,
    fdbLearnMode: int,
    maxLearned: nat,
    violationAction: int,
    adminState: bool,
    ingressFiltering: bool,
    refCount: nat)

  datatype PortAttr =
    | FdbLearningMode(mode: int)
    | MaxLearnedAddresses(max: nat)
    | LimitViolationAction(action: int)
    | AdminState(up: bool)
    | IngressFiltering(on: bool)
    | BridgeId(bridge: Oid)
    | OtherAttr

  /** The three kinds of object that hold a reference to a bridge port. */
  datatype Member = VlanMember | StpPort | L2mcMember

  /** The value of the whole database. */
  datatype Db = Db(lists: Lists, ports: map<Oid, BridgePortInfo>)

  function BridgeKey(bridge: Oid): Key {
    Key(BridgeToBridgePortList, bridge, 0)
  }

  function PortVlanKey(port: Oid, vlan: Oid): Key {
    Key(PortVlanToBridgePortList, port, vlan)
  }

  function LagKey(lag: Oid): Key {
    Key(LagToBridgePortList, lag, 0)
  }

  function TunnelKey(tunnel: Oid): Key {
    Key(TunnelToBridgePortList, tunnel, 0)
  }

  function MemberKey(kind: Member, bridgePort: Oid): Key {
    match kind
    case VlanMember => Key(BridgePortToVlanMemberList, bridgePort, 0)
    case StpPort => Key(BridgePortToStpPortList, bridgePort, 0)
    case L2mcMember => Key(BridgePortToL2mcMemberList, bridgePort, 0)
  }

  // ---------------------------------------------------------------- one operation on values

  function ListAdd(m: Lists, key: Key, v: Oid): Lists {
    m[key := ListAt(m, key) + [Data(v, 0)]]
  }

  /** Remove the first entry for `v`; a list left empty is dropped with its key. */
  function ListRemove(m: Lists, key: Key, v: Oid): Lists {
    if key !in m then m
    else
      var list := RemoveEach(m[key], [Data(v, 0)], FILTER_VAL1);
      if list == [] then m - {key} else m[key := list]
  }

  function AddRef(ports: map<Oid, BridgePortInfo>, id: Oid): map<Oid, BridgePortInfo> {
    if id in ports then ports[id := ports[id].(refCount := (ports[id].refCount + 1) % TWO_TO_THE_32)] else ports
  }

  /** An unsigned decrement: it wraps around at zero. */
  function DropRef(ports: map<Oid, BridgePortInfo>, id: Oid): map<Oid, BridgePortInfo> {
    if id in ports then
      ports[id := ports[id].(refCount := (ports[id].refCount + TWO_TO_THE_32 - 1) % TWO_TO_THE_32)]
    else ports
  }

  function WritePort(db: Db, id: Oid, info: BridgePortInfo): Db {
    Db(ListAdd(db.lists, BridgeKey(info.bridgeId), info.bridgePortId), db.ports[id := info])
  }

  function DeletePort(db: Db, id: Oid): Db {
    if id in db.ports then Db(ListRemove(db.lists, BridgeKey(db.ports[id].bridgeId), id), db.ports - {id}) else db
  }

  function AddMember(db: Db, kind: Member, port: Oid, member: Oid): Db {
    Db(ListAdd(db.lists, MemberKey(kind, port), member), AddRef(db.ports, port))
  }

  function RemoveMember(db: Db, kind: Member, port: Oid, member: Oid): Db {
    Db(ListRemove(db.lists, MemberKey(kind, port), member), DropRef(db.ports, port))
  }

  function WithAttr(info: BridgePortInfo, attr: PortAttr): BridgePortInfo {
    match attr
    case FdbLearningMode(mode) => info.(fdbLearnMode := mode)
    case MaxLearnedAddresses(max) => info.(maxLearned := max)
    case LimitViolationAction(action) => info.(violationAction := action)
    case AdminState(up) => info.(adminState := up)
    case IngressFiltering(on) => info.(ingressFiltering := on)
    case BridgeId(bridge) => info.(bridgeId := bridge)
    case OtherAttr => info
  }

  function SetAttr(db: Db, id: Oid, attr: PortAttr): Db {
    if id in db.ports then db.(ports := db.ports[id := WithAttr(db.ports[id], attr)]) else db
  }

  /** The duplicate check: it reads the list through a buffer of one element. */
  predicate SubPortDuplicate(db: Db, port: Oid, vlan: Oid) {
    var list := ListAt(db.lists, PortVlanKey(port, vlan));
    |list| == 1 && list[0].val1 != NULL_OID
  }

  // ---------------------------------------------------------------- the tables in place

  class Database {
    const store: Store
    var bridgePorts: map<Oid, BridgePortInfo>

    constructor ()
      ensures fresh(store) && State() == Db(map[], map[])
    {
      store := new Store();
      bridgePorts := map[];
    }

    function State(): Db
      reads this, store
    {
      Db(store.lists, bridgePorts)
    }

    method BridgeMapInsert(bridge: Oid, bridgePort: Oid) returns (rc: Status)
      modifies store
      ensures rc == Success && store.lists == ListAdd(old(store.lists), BridgeKey(bridge), bridgePort)
    {
      store.Insert(BridgeKey(bridge), [Data(bridgePort, 0)]);
      rc := Success;
    }

    /** The shape that every wrapper with "remove" in its name shares. */
    method RemoveFromList(key: Key, v: Oid)
      modifies store
      ensures store.lists == ListRemove(old(store.lists), key, v)
    {
      store.DeleteElements(key, [Data(v, 0)], FILTER_VAL1);
      var rc, count := store.GetValCount(key);
      if rc == Success {
        if count.value == 0 {
          store.Delete(key);
        }
      }
    }

    method BridgeMapRemove(bridge: Oid, bridgePort: Oid) returns (rc: Status)
      modifies store
      ensures rc == Success && store.lists == ListRemove(old(store.lists), BridgeKey(bridge), bridgePort)
    {
      RemoveFromList(BridgeKey(bridge), bridgePort);
      rc := Success;
    }

    method LagMapInsert(lag: Oid, bridgePort: Oid)
      modifies store
      ensures store.lists == ListAdd(old(store.lists), LagKey(lag), bridgePort)
    {
      store.Insert(LagKey(lag), [Data(bridgePort, 0)]);
    }

    method LagMapRemove(lag: Oid, bridgePort: Oid)
      modifies store
      ensures store.lists == ListRemove(old(store.lists), LagKey(lag), bridgePort)
    {
      RemoveFromList(LagKey(lag), bridgePort);
    }

    method TunnelMapInsert(tunnel: Oid, bridgePort: Oid)
      modifies store
      ensures store.lists == ListAdd(old(store.lists), TunnelKey(tunnel), bridgePort)
    {
      store.Insert(TunnelKey(tunnel), [Data(bridgePort, 0)]);
    }

    method TunnelMapRemove(tunnel: Oid, bridgePort: Oid)
      modifies store
      ensures store.lists == ListRemove(old(store.lists), TunnelKey(tunnel), bridgePort)
    {
      RemoveFromList(TunnelKey(tunnel), bridgePort);
    }

    method PortCacheWrite(id: Oid, info: BridgePortInfo) returns (rc: Status)
      modifies this`bridgePorts, store
      ensures rc == Success && State() == WritePort(old(State()), id, info)
    {
      rc := BridgeMapInsert(info.bridgeId, info.bridgePortId);
      if rc != Success {
        return;
      }
      bridgePorts := bridgePorts[id := info];
    }

    method PortCacheDelete(id: Oid) returns (rc: Status)
      modifies this`bridgePorts, store
      ensures rc == Success && State() == DeletePort(old(State()), id)
    {
      rc := Success;
      if id in bridgePorts {
        rc := BridgeMapRemove(bridgePorts[id].bridgeId, id);
        if rc != Success {
          return;
        }
        bridgePorts := bridgePorts - {id};
      }
    }

    method PortCacheRead(id: Oid) returns (rc: Status, info: Option<BridgePortInfo>)
      ensures rc == if id in bridgePorts then Success else InvalidObjectId
      ensures info == if id in bridgePorts then Some(bridgePorts[id]) else None
    {
      if id in bridgePorts {
        return Success, Some(bridgePorts[id]);
      } else {
        return InvalidObjectId, None;
      }
    }

    method IncrementRefCount(id: Oid) returns (rc: Status)
      modifies this`bridgePorts
      ensures bridgePorts == AddRef(old(bridgePorts), id)
      ensures rc == if id in old(bridgePorts) then Success else InvalidParameter
    {
      var read, info := PortCacheRead(id);
      if read != Success {
        return InvalidParameter;
      }
      bridgePorts := bridgePorts[id := info.value.(refCount := (info.value.refCount + 1) % TWO_TO_THE_32)];
      return Success;
    }

    method DecrementRefCount(id: Oid) returns (rc: Status)
      modifies this`bridgePorts
      ensures bridgePorts == DropRef(old(bridgePorts), id)
      ensures rc == if id in old(bridgePorts) then Success else InvalidParameter
    {
      var read, info := PortCacheRead(id);
      if read != Success {
        return InvalidParameter;
      }
      bridgePorts := bridgePorts[id :=
        info.value.(refCount := (info.value.refCount + TWO_TO_THE_32 - 1) % TWO_TO_THE_32)];
      return Success;
    }

    /** The insert wrappers for VLAN members, STP ports and L2MC members. */
    method MemberMapInsert(kind: Member, bridgePort: Oid, member: Oid) returns (rc: Status)
      modifies this`bridgePorts, store
      ensures rc == Success && State() == AddMember(old(State()), kind, bridgePort, member)
    {
      store.Insert(MemberKey(kind, bridgePort), [Data(member, 0)]);
      var ignored := IncrementRefCount(bridgePort);
      rc := Success;
    }

    /** The remove wrappers: the count drops whether or not the member was listed. */
    method MemberMapRemove(kind: Member, bridgePort: Oid, member: Oid) returns (rc: Status)
      modifies this`bridgePorts, store
      ensures rc == Success && State() == RemoveMember(old(State()), kind, bridgePort, member)
    {
      RemoveFromList(MemberKey(kind, bridgePort), member);
      var ignored := DecrementRefCount(bridgePort);
      rc := Success;
    }

    /** An id that is not cached stands for the null record. */
    method UpdateAttrInCache(id: Oid, attr: PortAttr) returns (rc: Status)
      modifies this`bridgePorts
      ensures State() == SetAttr(old(State()), id, attr)
      ensures rc == if id !in old(bridgePorts) then InvalidParameter
                    else if attr == OtherAttr then AttrStatus(InvalidAttribute, 0) else Success
    {
      if id !in bridgePorts {
        return InvalidParameter;
      }
      var info := bridgePorts[id];
      match attr {
        case FdbLearningMode(mode) => info := info.(fdbLearnMode := mode);
        case MaxLearnedAddresses(max) => info := info.(maxLearned := max);
        case LimitViolationAction(action) => info := info.(violationAction := action);
        case AdminState(up) => info := info.(adminState := up);
        case IngressFiltering(on) => info := info.(ingressFiltering := on);
        case BridgeId(bridge) => info := info.(bridgeId := bridge);
        case OtherAttr =>
          assert bridgePorts[id := info] == bridgePorts;
          return AttrStatus(InvalidAttribute, 0);
      }
      bridgePorts := bridgePorts[id := info];
      return Success;
    }

    method PortVlanMapInsert(port: Oid, vlan: Oid, bridgePort: Oid) returns (rc: Status)
      modifies store
      ensures rc == Success && store.lists == ListAdd(old(store.lists), PortVlanKey(port, vlan), bridgePort)
    {
      store.Insert(PortVlanKey(port, vlan), [Data(bridgePort, 0)]);
      rc := Success;
    }

    method PortVlanMapRemove(port: Oid, vlan: Oid) returns (rc: Status)
      modifies store
      ensures rc == Success && store.lists == old(store.lists) - {PortVlanKey(port, vlan)}
    {
      store.Delete(PortVlanKey(port, vlan));
      rc := Success;
    }

    /** A list longer than the one-element buffer overflows it, and an empty one leaves the
        zeroed buffer, so neither counts as a duplicate. */
    method IsSubPortDuplicate(port: Oid, vlan: Oid) returns (r: bool)
      ensures r == SubPortDuplicate(State(), port, vlan)
    {
      var data := new Data[1](i => Data(0, 0));
      var rc, count := store.Get(PortVlanKey(port, vlan), data, 1);
      if rc == Success {
        assert count == 1 ==> data[..1] == store.lists[PortVlanKey(port, vlan)];
        assert count == 0 ==> data[0..][0] == Data(0, 0);
      }
      var bridgePort := if rc == Success then data[0].val1 else NULL_OID;
      return rc == Success && bridgePort != NULL_OID;
    }

    /** `buffer` is the caller's list and `count` its size; on overflow nothing changes. */
    method BridgeMapPortListGet(bridge: Oid, buffer: array<Oid>, count: nat) returns (rc: Status, newCount: nat)
      requires count <= buffer.Length
      modifies buffer
      ensures var list := ListAt(store.lists, BridgeKey(bridge));
              && (rc == Success <==> |list| <= count)
              && (rc != Success ==> rc == BufferOverflow && newCount == count && buffer[..] == old(buffer[..]))
              && (rc == Success ==>
                    && newCount == |list|
                    && (forall i | 0 <= i < newCount :: buffer[i] == list[i].val1)
                    && buffer[newCount..] == old(buffer[newCount..]))
    {
      var data := new Data[count](i => Data(0, 0));
      var found, n := store.Get(BridgeKey(bridge), data, count);
      if found == ItemNotFound {
        return Success, 0;
      }
      if found != Success {
        return found, count;
      }
      assert data[..n] == store.lists[BridgeKey(bridge)];
      for i := 0 to n
        invariant forall k | 0 <= k < i :: buffer[k] == store.lists[BridgeKey(bridge)][k].val1
        invariant buffer[n..] == old(buffer[n..])
        invariant data[..n] == store.lists[BridgeKey(bridge)]
      {
        assert data[..n][i] == data[i];
        buffer[i] := data[i].val1;
      }
      return Success, n;
    }

    method TunnelBridgePortGetAtIndex(tunnel: Oid, index: nat) returns (rc: Status, bridgePort: Oid)
      ensures var list := ListAt(store.lists, TunnelKey(tunnel));
              && (rc == Success <==> index < |list|)
              && (rc == Success ==> bridgePort == list[index].val1)
    {
      bridgePort := NULL_OID;
      var value;
      rc, value := store.GetElementAtIndex(TunnelKey(tunnel), index);
      if rc == Success {
        bridgePort := value.value.val1;
      }
    }

    /** True exactly when some port in the tunnel's list is cached with that bridge. */
    method IsBridgeConnectedToTunnel(bridge: Oid, tunnel: Oid) returns (connected: bool)
      ensures connected <==> exists d | d in ListAt(store.lists, TunnelKey(tunnel)) ::
                               d.val1 in bridgePorts && bridgePorts[d.val1].bridgeId == bridge
    {
      connected := false;
      var rc, found := store.GetValCount(TunnelKey(tunnel));
      var count := if rc == Success then found.value else 0;
      if count == 0 {
        return false;
      }
      ghost var list := store.lists[TunnelKey(tunnel)];
      var index := 0;
      while index < count
        invariant 0 <= index <= count
        invariant !connected
        invariant forall k | 0 <= k < index :: !(list[k].val1 in bridgePorts && bridgePorts[list[k].val1].bridgeId == bridge)
      {
        var got, bridgePort := TunnelBridgePortGetAtIndex(tunnel, index);
        if got == Success {
          var read, info := PortCacheRead(bridgePort);
          if read == Success {
            if info.value.bridgeId == bridge {
              connected := true;
              break;
            }
          }
        }
        index := index + 1;
      }
      if connected {
        assert list[index] in list;
      }
    }
  }
}
