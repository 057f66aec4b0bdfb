/** The keyed list store: every key holds a list of value pairs. */
module SaiMap {
  import opened SaiTypes

  datatype MapType =
    | NhGroupToMemberList
    | NhMemberToGroupInfo
    | PortTcAndColorMapList
    | LagRifInfo
    | BridgeToBridgePortList
    | PortVlanToBridgePortList
    | LagToBridgePortList
    | BridgePortToVlanMemberList
    | BridgePortToStpPortList
    | TunnelToBridgePortList
    | TunnelMapToTunnelList
    | BridgePortToL2mcMemberList

  datatype Key = Key(mapType: MapType, id1: Oid, id2: Oid)

  datatype Data = Data(val1: Oid, val2: Oid)

  /** The bits of a filter mask. */
  datatype Filter = Filter(none: bool, val1: bool, val2: bool)

  const FILTER_VAL1 := Filter(false, true, false)

  const FILTER_BOTH := Filter(false, true, true)

  type Lists = map<Key, seq<Data>>

  function ListAt(m: Lists, key: Key): seq<Data> {
    if key in m then m[key] else []
  }

  predicate ApplyFilter(a: Data, b: Data, f: Filter) {
    f.none || ((f.val1 ==> a.val1 == b.val1) && (f.val2 ==> a.val2 == b.val2))
  }

  /** The first position from `k` on that matches, or the length of the list. */
  function FirstMatch(list: seq<Data>, d: Data, f: Filter, k: nat): (r: nat)
    requires k <= |list|
    ensures k <= r <= |list|
    ensures forall j | k <= j < r :: !ApplyFilter(d, list[j], f)
    ensures r < |list| ==> ApplyFilter(d, list[r], f)
    decreases |list| - k
  {
    if k == |list| || ApplyFilter(d, list[k], f) then k else FirstMatch(list, d, f, k + 1)
  }

  function RemoveFirst(list: seq<Data>, d: Data, f: Filter): seq<Data> {
    var k := FirstMatch(list, d, f, 0);
    if k < |list| then list[..k] + list[k + 1..] else list
  }

  /** Remove the first match of each value in turn. */
  function RemoveEach(list: seq<Data>, values: seq<Data>, f: Filter): seq<Data>
    decreases |values|
  {
    if values == [] then list else RemoveEach(RemoveFirst(list, values[0], f), values[1..], f)
  }

  class Store {
    var lists: Lists

    constructor ()
      ensures lists == map[]
    {
      lists := map[];
    }

    method Insert(key: Key, value: seq<Data>)
      modifies this
      ensures lists == old(lists)[key := ListAt(old(lists), key) + value]
    {
      if key in lists {
        for i := 0 to |value|
          invariant key in lists && lists == old(lists)[key := lists[key]]
          invariant lists[key] == old(lists)[key] + value[..i]
        {
          lists := lists[key := lists[key] + [value[i]]];
        }
        assert value[..|value|] == value;
      } else {
        var newList := [];
        for i := 0 to |value|
          invariant newList == value[..i]
        {
          newList := newList + [value[i]];
        }
        assert newList == [] + value;
        lists := lists[key := newList];
      }
    }

    method Delete(key: Key)
      modifies this
      ensures lists == old(lists) - {key}
    {
      if key in lists {
        lists := lists - {key};
      }
    }

    method DeleteElements(key: Key, value: seq<Data>, filter: Filter)
      modifies this
      ensures key !in old(lists) ==> lists == old(lists)
      ensures key in old(lists) ==> lists == old(lists)[key := RemoveEach(old(lists)[key], value, filter)]
    {
      if key in lists {
        for i := 0 to |value|
          invariant key in lists && lists == old(lists)[key := lists[key]]
          invariant RemoveEach(old(lists)[key], value, filter) == RemoveEach(lists[key], value[i..], filter)
        {
          ghost var list := lists[key];
          var position := 0;
          while position < |lists[key]|
            invariant 0 <= position <= |list|
            invariant lists == old(lists)[key := list]
            invariant FirstMatch(list, value[i], filter, 0) == FirstMatch(list, value[i], filter, position)
          {
            if ApplyFilter(value[i], lists[key][position], filter) {
              lists := lists[key := lists[key][..position] + lists[key][position + 1..]];
              break;
            }
            position := position + 1;
          }
          assert lists[key] == RemoveFirst(list, value[i], filter);
          assert value[i..][1..] == value[i + 1..];
        }
      }
    }

    /** `data` is the caller's buffer and `count` its size; on overflow only the count is
        reported. */
    method Get(key: Key, data: array<Data>, count: nat) returns (rc: Status, newCount: nat)
      requires count <= data.Length
      modifies data
      ensures rc == if key !in lists then ItemNotFound
                    else if |lists[key]| > count then BufferOverflow else Success
      ensures newCount == if key in lists then |lists[key]| else count
      ensures rc == Success ==> newCount <= count && data[..newCount] == lists[key]
                                && data[newCount..] == old(data[newCount..])
      ensures rc != Success ==> data[..] == old(data[..])
    {
      rc, newCount := Success, count;
      if key in lists {
        newCount := |lists[key]|;
        if newCount > count {
          rc := BufferOverflow;
        } else {
          for i := 0 to newCount
            invariant data[..i] == lists[key][..i]
            invariant data[newCount..] == old(data[newCount..])
          {
            data[i] := lists[key][i];
          }
        }
      } else {
        rc := ItemNotFound;
      }
    }

    method GetElementAtIndex(key: Key, index: nat) returns (rc: Status, value: Option<Data>)
      ensures rc == if key !in lists then ItemNotFound
                    else if index >= |lists[key]| then InvalidParameter else Success
      ensures value == if rc == Success then Some(lists[key][index]) else None
    {
      if key in lists {
        if index >= |lists[key]| {
          return InvalidParameter, None;
        } else {
          return Success, Some(lists[key][index]);
        }
      } else {
        return ItemNotFound, None;
      }
    }

    method GetValCount(key: Key) returns (rc: Status, count: Option<nat>)
      ensures rc == if key in lists then Success else ItemNotFound
      ensures count == if key in lists then Some(|lists[key]|) else None
    {
      if key in lists {
        return Success, Some(|lists[key]|);
      } else {
        return ItemNotFound, None;
      }
    }
  }

  // ---------------------------------------------------------------- deletion as multiset difference

  function Map<T>(list: seq<Data>, proj: Data -> T): (r: seq<T>)
    ensures |r| == |list| && forall i | 0 <= i < |list| :: r[i] == proj(list[i])
  {
    seq(|list|, i requires 0 <= i < |list| => proj(list[i]))
  }

  /** The multiset of what a projection sees of a list. */
  function Bag<T>(list: seq<Data>, proj: Data -> T): multiset<T> {
    multiset(Map(list, proj))
  }

  /** The projection sees exactly what the filter compares. */
  ghost predicate Observes<T(!new)>(proj: Data -> T, f: Filter) {
    forall a, b :: ApplyFilter(a, b, f) <==> proj(a) == proj(b)
  }

  lemma BagAppend<T>(a: seq<Data>, b: seq<Data>, proj: Data -> T)
    ensures Bag(a + b, proj) == Bag(a, proj) + Bag(b, proj)
  {
    assert Map(a + b, proj) == Map(a, proj) + Map(b, proj);
  }

  lemma BagLast<T>(list: seq<Data>, x: Data, proj: Data -> T)
    ensures Bag(list + [x], proj) == Bag(list, proj) + multiset{proj(x)}
  {
    assert Map(list + [x], proj) == Map(list, proj) + [proj(x)];
  }

  lemma BagMember<T>(list: seq<Data>, proj: Data -> T, x: T)
    ensures x in Bag(list, proj) <==> exists i :: 0 <= i < |list| && proj(list[i]) == x
  {
    if x in Bag(list, proj) {
      var i :| 0 <= i < |list| && Map(list, proj)[i] == x;
      assert proj(list[i]) == x;
    }
    if i :| 0 <= i < |list| && proj(list[i]) == x {
      assert Map(list, proj)[i] == x;
    }
  }

  lemma RemoveAtBag<T>(list: seq<Data>, k: nat, x: T, proj: Data -> T)
    requires k < |list| && proj(list[k]) == x
    ensures Bag(list[..k] + list[k + 1..], proj) == Bag(list, proj) - multiset{x}
  {
    var all := Map(list, proj);
    assert all == all[..k] + [x] + all[k + 1..];
    assert Map(list[..k] + list[k + 1..], proj) == all[..k] + all[k + 1..];
  }

  lemma AbsentBag<T>(list: seq<Data>, x: T, proj: Data -> T)
    requires forall j | 0 <= j < |list| :: proj(list[j]) != x
    ensures Bag(list, proj) == Bag(list, proj) - multiset{x}
  {
    assert x !in Map(list, proj);
  }

  /** The projection sees the first match, and no match where there is none. */
  ghost predicate SeesFirst<T>(list: seq<Data>, k: nat, x: T, proj: Data -> T)
    requires k <= |list|
  {
    if k < |list| then proj(list[k]) == x else forall j | 0 <= j < |list| :: proj(list[j]) != x
  }

  lemma FirstMatchSeen<T(!new)>(list: seq<Data>, d: Data, f: Filter, proj: Data -> T)
    requires Observes(proj, f)
    ensures SeesFirst(list, FirstMatch(list, d, f, 0), proj(d), proj)
  {
  }

  lemma RemoveFirstBag<T(!new)>(list: seq<Data>, d: Data, f: Filter, proj: Data -> T)
    requires Observes(proj, f)
    ensures Bag(RemoveFirst(list, d, f), proj) == Bag(list, proj) - multiset{proj(d)}
  {
    FirstMatchSeen(list, d, f, proj);
    var k := FirstMatch(list, d, f, 0);
    if k < |list| {
      RemoveAtBag(list, k, proj(d), proj);
    } else {
      AbsentBag(list, proj(d), proj);
    }
  }

  lemma SubtractOneByOne<T>(m: multiset<T>, x: T, rest: multiset<T>)
    ensures m - multiset{x} - rest == m - (multiset{x} + rest)
  {
  }

  lemma BagHead<T>(values: seq<Data>, proj: Data -> T)
    requires values != []
    ensures Bag(values, proj) == multiset{proj(values[0])} + Bag(values[1..], proj)
  {
    assert Map(values, proj) == [proj(values[0])] + Map(values[1..], proj);
  }

  /** Deleting a list of values is multiset difference on what the filter compares. */
  lemma {:induction false} RemoveEachBag<T(!new)>(list: seq<Data>, values: seq<Data>, f: Filter, proj: Data -> T)
    requires Observes(proj, f)
    ensures Bag(RemoveEach(list, values, f), proj) == Bag(list, proj) - Bag(values, proj)
    decreases |values|
  {
    if values == [] {
    } else {
      BagHead(values, proj);
      RemoveFirstBag(list, values[0], f, proj);
      RemoveEachBag(RemoveFirst(list, values[0], f), values[1..], f, proj);
      SubtractOneByOne(Bag(list, proj), proj(values[0]), Bag(values[1..], proj));
    }
  }

  function Identity(d: Data): Data {
    d
  }

  lemma IdentityBag(list: seq<Data>)
    ensures Bag(list, Identity) == multiset(list)
  {
    assert Map(list, Identity) == list;
  }

  /** With both value filters, deletion is multiset difference of the elements themselves. */
  lemma DeleteIsDifference(list: seq<Data>, values: seq<Data>)
    ensures multiset(RemoveEach(list, values, FILTER_BOTH)) == multiset(list) - multiset(values)
  {
    RemoveEachBag(list, values, FILTER_BOTH, Identity);
    IdentityBag(list);
    IdentityBag(values);
    IdentityBag(RemoveEach(list, values, FILTER_BOTH));
  }

  function First(d: Data): Oid {
    d.val1
  }

  function Second(d: Data): Oid {
    d.val2
  }

  /** With one value filter, deletion is multiset difference of those values, whatever the others. */
  lemma DeleteByOneValue(list: seq<Data>, values: seq<Data>)
    ensures Bag(RemoveEach(list, values, Filter(false, true, false)), First) == Bag(list, First) - Bag(values, First)
    ensures Bag(RemoveEach(list, values, Filter(false, false, true)), Second) == Bag(list, Second) - Bag(values, Second)
  {
    RemoveEachBag(list, values, Filter(false, true, false), First);
    RemoveEachBag(list, values, Filter(false, false, true), Second);
  }

  /** Without a value filter anything matches: as many elements go as values are given, from the
      front. */
  lemma {:induction false} DeleteUnfiltered(list: seq<Data>, values: seq<Data>, f: Filter)
    requires f.none || (!f.val1 && !f.val2)
    ensures RemoveEach(list, values, f) == if |values| <= |list| then list[|values|..] else []
    decreases |values|
  {
    if values == [] {
    } else {
      assert RemoveFirst(list, values[0], f) == if list == [] then [] else list[1..];
      DeleteUnfiltered(RemoveFirst(list, values[0], f), values[1..], f);
    }
  }

  // ---------------------------------------------------------------- order of the survivors

  predicate Increasing(idx: seq<nat>) {
    forall i, j | 0 <= i < j < |idx| :: idx[i] < idx[j]
  }

  /** `part` is read off `whole` at the increasing positions `idx`. */
  predicate Picks(part: seq<Data>, whole: seq<Data>, idx: seq<nat>) {
    && |idx| == |part| && Increasing(idx)
    && forall i | 0 <= i < |idx| :: idx[i] < |whole| && part[i] == whole[idx[i]]
  }

  lemma RemoveFirstPicks(list: seq<Data>, d: Data, f: Filter) returns (idx: seq<nat>)
    ensures Picks(RemoveFirst(list, d, f), list, idx)
  {
    var k := FirstMatch(list, d, f, 0);
    idx := seq(|RemoveFirst(list, d, f)|, i requires i >= 0 => if i < k then i else i + 1);
  }

  lemma PicksCompose(a: seq<Data>, b: seq<Data>, c: seq<Data>, ab: seq<nat>, bc: seq<nat>) returns (ac: seq<nat>)
    requires Picks(a, b, ab) && Picks(b, c, bc)
    ensures Picks(a, c, ac)
  {
    ac := seq(|a|, i requires 0 <= i < |a| => bc[ab[i]]);
  }

  /** Whatever the filter, the survivors of a deletion keep their relative order. */
  lemma {:induction false} SurvivorsKeepOrder(list: seq<Data>, values: seq<Data>, f: Filter) returns (idx: seq<nat>)
    ensures Picks(RemoveEach(list, values, f), list, idx)
    decreases |values|
  {
    if values == [] {
      idx := seq(|list|, i requires i >= 0 => i);
    } else {
      var first := RemoveFirstPicks(list, values[0], f);
      var rest := SurvivorsKeepOrder(RemoveFirst(list, values[0], f), values[1..], f);
      idx := PicksCompose(RemoveEach(list, values, f), RemoveFirst(list, values[0], f), list, rest, first);
    }
  }

  // ---------------------------------------------------------------- insert, then delete

  /** Inserting a list of values and deleting it again restores the multiset, for any filter. */
  lemma InsertDeleteBag<T(!new)>(list: seq<Data>, values: seq<Data>, f: Filter, proj: Data -> T)
    requires Observes(proj, f)
    ensures Bag(RemoveEach(list + values, values, f), proj) == Bag(list, proj)
  {
    RemoveEachBag(list + values, values, f, proj);
    BagAppend(list, values, proj);
  }

  lemma FirstMatchUnique(list: seq<Data>, d: Data, f: Filter, k: nat)
    requires k < |list| && ApplyFilter(d, list[k], f)
    requires forall j | 0 <= j < k :: !ApplyFilter(d, list[j], f)
    ensures FirstMatch(list, d, f, 0) == k
  {
  }

  /** Inserting one element and deleting it again restores the very sequence exactly when
      nothing in the list matched, or everything from the first match on equals the element. */
  lemma InsertDeleteRestores(list: seq<Data>, d: Data, f: Filter)
    ensures RemoveFirst(list + [d], d, f) == list
       <==> forall j | FirstMatch(list, d, f, 0) <= j < |list| :: list[j] == d
  {
    var k := FirstMatch(list, d, f, 0);
    var all := list + [d];
    assert FirstMatch(all, d, f, 0) == k by { FirstMatchUnique(all, d, f, k); }
    var r := all[..k] + all[k + 1..];
    if r == list {
      var j := |list|;
      while j > k
        invariant k <= j <= |list|
        invariant forall i | j <= i < |list| :: list[i] == d
      {
        j := j - 1;
        assert list[j] == r[j] == all[j + 1];
      }
    }
  }

  /** When an older entry matches, it is the older one that goes. */
  lemma DeleteTakesTheOlder(v: Oid, w1: Oid, w2: Oid)
    requires w1 != w2
    ensures RemoveFirst([Data(v, w1)] + [Data(v, w2)], Data(v, w2), FILTER_VAL1) == [Data(v, w2)] != [Data(v, w1)]
  {
    FirstMatchUnique([Data(v, w1), Data(v, w2)], Data(v, w2), FILTER_VAL1, 0);
  }
}
