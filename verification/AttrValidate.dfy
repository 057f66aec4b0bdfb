/** Validation of attribute lists against a vendor table. */
module AttrValidate {
  import opened SaiTypes
  import opened Collections

  type AttrId = nat

  datatype VendorAttr = VendorAttr(
    id: AttrId,
    mandatoryOnCreate: bool,
    validForCreate: bool,
    validForSet: bool,
    validForGet: bool,
    isImplemented: bool,
    isSupported: bool)

  datatype Operation = Create | Get | Set | Remove | MaxOperation

  /** The status of a fault at a list position; `span` is the number of codes reserved for a
      fault, as the status header defines it. */
  function IndexedStatus(fault: AttrFault, index: nat, span: AttrFault -> nat): Status {
    if index < span(fault) then AttrStatus(fault, index) else InvalidParameter
  }

  /** The first entry of the table from position `k` on with the given id, or the table's size. */
  function FindFrom(vendor: seq<VendorAttr>, id: AttrId, k: nat): (r: nat)
    requires k <= |vendor|
    ensures k <= r <= |vendor|
    ensures forall j | k <= j < r :: vendor[j].id != id
    ensures r < |vendor| ==> vendor[r].id == id
    decreases |vendor| - k
  {
    if k == |vendor| || vendor[k].id == id then k else FindFrom(vendor, id, k + 1)
  }

  function Find(vendor: seq<VendorAttr>, id: AttrId): nat {
    FindFrom(vendor, id, 0)
  }

  predicate ValidFor(e: VendorAttr, op: Operation) {
    match op
    case Create => e.validForCreate
    case Set => e.validForSet
    case Get => e.validForGet
    case _ => false
  }

  /** What is wrong with an id for an operation, if anything. */
  function FaultOf(vendor: seq<VendorAttr>, id: AttrId, op: Operation): Option<AttrFault> {
    var k := Find(vendor, id);
    if k == |vendor| then Some(UnknownAttribute)
    else if !vendor[k].isImplemented then Some(NotImplemented)
    else if !vendor[k].isSupported then Some(NotSupported)
    else if !ValidFor(vendor[k], op) then Some(InvalidAttribute)
    else None
  }

  predicate IsMandatory(vendor: seq<VendorAttr>, id: AttrId) {
    Find(vendor, id) < |vendor| && vendor[Find(vendor, id)].mandatoryOnCreate
  }

  /** The two counters of the create check. */
  function MandatoryTotal(vendor: seq<VendorAttr>): nat {
    if vendor == [] then 0
    else MandatoryTotal(vendor[..|vendor| - 1]) + if vendor[|vendor| - 1].mandatoryOnCreate then 1 else 0
  }

  function MandatoryGiven(vendor: seq<VendorAttr>, attrs: seq<AttrId>): nat {
    if attrs == [] then 0
    else MandatoryGiven(vendor, attrs[..|attrs| - 1]) + if IsMandatory(vendor, attrs[|attrs| - 1]) then 1 else 0
  }

  /** The first list position from `i` on whose attribute has a fault, or the list's length. */
  function FirstFault(vendor: seq<VendorAttr>, attrs: seq<AttrId>, op: Operation, i: nat): (r: nat)
    requires i <= |attrs|
    ensures i <= r <= |attrs|
    ensures forall j | i <= j < r :: FaultOf(vendor, attrs[j], op) == None
    ensures r < |attrs| ==> FaultOf(vendor, attrs[r], op) != None
    decreases |attrs| - i
  {
    if i == |attrs| || FaultOf(vendor, attrs[i], op) != None then i
    else FirstFault(vendor, attrs, op, i + 1)
  }

  /** The status of a list that is present and not longer than the table. */
  function ListStatus(vendor: seq<VendorAttr>, attrs: seq<AttrId>, op: Operation, span: AttrFault -> nat): Status {
    var i := FirstFault(vendor, attrs, op, 0);
    if i < |attrs| then IndexedStatus(FaultOf(vendor, attrs[i], op).value, i, span)
    else if op == Create && MandatoryGiven(vendor, attrs) != MandatoryTotal(vendor) then MandatoryAttributeMissing
    else Success
  }

  /** The status of the whole check; `None` stands for a null list. */
  function Validated(attrs: Option<seq<AttrId>>, count: nat, vendor: seq<VendorAttr>, op: Operation,
                     span: AttrFault -> nat): Status
    requires attrs.Some? ==> count <= |attrs.value|
  {
    if op != Create && (count == 0 || attrs.None?) then InvalidParameter
    else if op == Create && count != 0 && attrs.None? then InvalidParameter
    else if count > |vendor| then InvalidParameter
    else ListStatus(vendor, if count == 0 then [] else attrs.value[..count], op, span)
  }

  /** The inner loop: look one attribute up and classify it. `counted` tells whether it is to be
      counted as a given mandatory attribute. */
  method CheckAttribute(vendor: seq<VendorAttr>, id: AttrId, op: Operation)
    returns (fault: Option<AttrFault>, counted: bool)
    requires vendor != []
    ensures fault == FaultOf(vendor, id, op)
    ensures op == Create && fault == None ==> (counted <==> IsMandatory(vendor, id))
  {
    fault, counted := None, false;
    var k := 0;
    while k < |vendor|
      invariant 0 <= k <= |vendor|
      invariant Find(vendor, id) == FindFrom(vendor, id, k)
      invariant k > 0 ==> fault == Some(UnknownAttribute)
      invariant !counted
    {
      fault := Some(UnknownAttribute);
      if vendor[k].id == id {
        if !vendor[k].isImplemented {
          fault := Some(NotImplemented);
          break;
        } else if !vendor[k].isSupported {
          fault := Some(NotSupported);
          break;
        }
        if op == Create {
          if vendor[k].validForCreate {
            if vendor[k].mandatoryOnCreate {
              counted := true;
            }
            fault := None;
            break;
          }
        } else if op == Set {
          if vendor[k].validForSet {
            fault := None;
            break;
          }
        } else if op == Get {
          if vendor[k].validForGet {
            fault := None;
            break;
          }
        }
        fault := Some(InvalidAttribute);
        break;
      }
      k := k + 1;
    }
  }

  method CountMandatory(vendor: seq<VendorAttr>) returns (total: nat)
    ensures total == MandatoryTotal(vendor)
  {
    total := 0;
    for k := 0 to |vendor|
      invariant total == MandatoryTotal(vendor[..k])
    {
      assert vendor[..k + 1][..k] == vendor[..k];
      if vendor[k].mandatoryOnCreate {
        total := total + 1;
      }
    }
    assert vendor[..|vendor|] == vendor;
  }

  lemma GivenStep(vendor: seq<VendorAttr>, list: seq<AttrId>, i: nat)
    requires i < |list|
    ensures MandatoryGiven(vendor, list[..i + 1])
         == MandatoryGiven(vendor, list[..i]) + if IsMandatory(vendor, list[i]) then 1 else 0
  {
    assert list[..i + 1][..i] == list[..i];
  }

  /** The outer loop: stop at the first fault, else count the mandatory attributes given. */
  method CheckList(vendor: seq<VendorAttr>, list: seq<AttrId>, op: Operation)
    returns (bad: nat, fault: Option<AttrFault>, given: nat)
    requires list != [] ==> vendor != []
    ensures bad == FirstFault(vendor, list, op, 0)
    ensures bad < |list| ==> fault == FaultOf(vendor, list[bad], op)
    ensures bad == |list| && op == Create ==> given == MandatoryGiven(vendor, list)
  {
    given, fault := 0, None;
    for i := 0 to |list|
      invariant FirstFault(vendor, list, op, 0) == FirstFault(vendor, list, op, i)
      invariant op == Create ==> given == MandatoryGiven(vendor, list[..i])
    {
      var counted;
      fault, counted := CheckAttribute(vendor, list[i], op);
      if fault.Some? {
        return i, fault, given;
      }
      GivenStep(vendor, list, i);
      if counted {
        given := given + 1;
      }
    }
    assert list[..|list|] == list;
    return |list|, None, given;
  }

  method AttributeValidate(count: nat, attrs: Option<seq<AttrId>>, vendor: seq<VendorAttr>, op: Operation,
                           span: AttrFault -> nat)
    returns (rc: Status)
    requires attrs.Some? ==> count <= |attrs.value|
    ensures rc == Validated(attrs, count, vendor, op, span)
  {
    if op != Create {
      if count == 0 || attrs.None? {
        return InvalidParameter;
      }
    } else {
      if count != 0 && attrs.None? {
        return InvalidParameter;
      }
    }
    if count > |vendor| {
      return InvalidParameter;
    }
    var total := CountMandatory(vendor);
    var bad, fault, given := CheckList(vendor, if count == 0 then [] else attrs.value[..count], op);
    if bad < count {
      return IndexedStatus(fault.value, bad, span);
    }
    if op == Create && given != total {
      return MandatoryAttributeMissing;
    }
    return Success;
  }

  // ---------------------------------------------------------------- duplicates and lookup

  /** The pair found is the first one in the order of the left index, then of the right one. */
  ghost predicate FirstDuplicate(ids: seq<AttrId>, i: nat, j: nat) {
    && i < j < |ids| && ids[i] == ids[j]
    && (forall a, b | 0 <= a < i && a < b < |ids| :: ids[a] != ids[b])
    && (forall b | i < b < j :: ids[i] != ids[b])
  }

  method CheckDuplicateAttr(count: nat, attrs: Option<seq<AttrId>>) returns (found: bool, dupIndex: nat)
    requires attrs.Some? ==> count <= |attrs.value|
    ensures found <==> attrs.Some? && !Distinct(attrs.value[..count])
    ensures found ==> exists i :: FirstDuplicate(attrs.value[..count], i, dupIndex)
  {
    dupIndex := 0;
    if attrs.None? {
      return false, 0;
    }
    ghost var ids := attrs.value[..count];
    for index := 0 to count
      invariant forall a, b | 0 <= a < index && a < b < count :: ids[a] != ids[b]
    {
      for next := index + 1 to count
        invariant forall b | index < b < next :: ids[index] != ids[b]
      {
        if attrs.value[index] == attrs.value[next] {
          assert FirstDuplicate(ids, index, next);
          return true, next;
        }
      }
    }
    return false, 0;
  }

  method FindAttrInAttrList(id: AttrId, count: nat, attrs: Option<seq<AttrId>>) returns (rc: Status, index: nat)
    requires attrs.Some? ==> count <= |attrs.value|
    ensures attrs.None? <==> rc == InvalidParameter
    ensures attrs.Some? ==> (rc == Success <==> id in attrs.value[..count])
    ensures rc == Success ==> index < count && attrs.value[index] == id && id !in attrs.value[..index]
    ensures rc == Success || rc == InvalidParameter || rc == ItemNotFound
  {
    index := 0;
    if attrs.None? {
      return InvalidParameter, 0;
    }
    for k := 0 to count
      invariant id !in attrs.value[..k]
    {
      if attrs.value[k] == id {
        assert attrs.value[..count][k] == id;
        return Success, k;
      }
    }
    return ItemNotFound, 0;
  }

  // ---------------------------------------------------------------- exactness of the create check

  predicate UniqueIds(vendor: seq<VendorAttr>) {
    forall i, j | 0 <= i < j < |vendor| :: vendor[i].id != vendor[j].id
  }

  /** The meaning of a good attribute: neither the search order nor the order of the checks nor the
      choice of the flag is taken from the code above. */
  ghost predicate Usable(vendor: seq<VendorAttr>, id: AttrId, op: Operation) {
    exists e :: e in vendor && e.id == id && e.isImplemented && e.isSupported
                && ((op == Create && e.validForCreate) || (op == Set && e.validForSet) || (op == Get && e.validForGet))
  }

  /** The meaning of each fault of an attribute that is not usable. */
  ghost predicate HasFault(vendor: seq<VendorAttr>, id: AttrId, op: Operation, fault: AttrFault) {
    match fault
    case UnknownAttribute => forall e | e in vendor :: e.id != id
    case NotImplemented => exists e :: e in vendor && e.id == id && !e.isImplemented
    case NotSupported => exists e :: e in vendor && e.id == id && e.isImplemented && !e.isSupported
    case InvalidAttribute =>
      exists e :: e in vendor && e.id == id && e.isImplemented && e.isSupported
                  && (op == Create ==> !e.validForCreate) && (op == Set ==> !e.validForSet)
                  && (op == Get ==> !e.validForGet)
  }

  ghost predicate Complete(vendor: seq<VendorAttr>, attrs: seq<AttrId>) {
    forall e | e in vendor && e.mandatoryOnCreate :: e.id in attrs
  }

  lemma FindUnique(vendor: seq<VendorAttr>, k: nat)
    requires UniqueIds(vendor) && k < |vendor|
    ensures Find(vendor, vendor[k].id) == k
  {
  }

  lemma UsableIsFaultless(vendor: seq<VendorAttr>, id: AttrId, op: Operation)
    requires UniqueIds(vendor)
    ensures Usable(vendor, id, op) <==> FaultOf(vendor, id, op) == None
  {
    if Usable(vendor, id, op) {
      var e :| e in vendor && e.id == id && e.isImplemented && e.isSupported
               && ((op == Create && e.validForCreate) || (op == Set && e.validForSet) || (op == Get && e.validForGet));
      var k :| 0 <= k < |vendor| && vendor[k] == e;
      FindUnique(vendor, k);
    }
    if FaultOf(vendor, id, op) == None {
      assert vendor[Find(vendor, id)] in vendor;
    }
  }

  /** The fault found is the fault there is. */
  lemma FaultMeans(vendor: seq<VendorAttr>, id: AttrId, op: Operation, fault: AttrFault)
    requires UniqueIds(vendor)
    ensures FaultOf(vendor, id, op) == Some(fault) <==> !Usable(vendor, id, op) && HasFault(vendor, id, op, fault)
  {
    UsableIsFaultless(vendor, id, op);
    var k := Find(vendor, id);
    if k < |vendor| {
      assert vendor[k] in vendor;
      forall e | e in vendor && e.id == id ensures e == vendor[k] {
        var i :| 0 <= i < |vendor| && vendor[i] == e;
        FindUnique(vendor, i);
      }
    } else {
      forall e | e in vendor ensures e.id != id {
        var i :| 0 <= i < |vendor| && vendor[i] == e;
      }
    }
  }

  /** The table positions that hold a mandatory entry. */
  function MandatoryEntries(vendor: seq<VendorAttr>): (s: set<nat>)
    ensures forall k :: k in s <==> 0 <= k < |vendor| && vendor[k].mandatoryOnCreate
    ensures |s| == MandatoryTotal(vendor)
  {
    if vendor == [] then {}
    else
      var n := |vendor| - 1;
      MandatoryEntries(vendor[..n]) + if vendor[n].mandatoryOnCreate then {n} else {}
  }

  predicate AllKnown(vendor: seq<VendorAttr>, attrs: seq<AttrId>) {
    forall i | 0 <= i < |attrs| :: Find(vendor, attrs[i]) < |vendor|
  }

  /** The table positions that the known attributes of a list lead to. Distinct attributes lead
      to distinct positions, so counting positions is counting attributes. */
  function Entries(vendor: seq<VendorAttr>, attrs: seq<AttrId>): (s: set<nat>)
    requires AllKnown(vendor, attrs)
    ensures forall k | k in s :: k < |vendor| && vendor[k].id in attrs
    ensures Distinct(attrs) ==> |s| == |attrs|
  {
    if attrs == [] then {}
    else
      var n := |attrs| - 1;
      Entries(vendor, attrs[..n]) + {Find(vendor, attrs[n])}
  }

  /** The positions of the mandatory entries that a list leads to. */
  function GivenEntries(vendor: seq<VendorAttr>, attrs: seq<AttrId>): (s: set<nat>)
    ensures forall k | k in s :: k < |vendor| && vendor[k].id in attrs && vendor[k].mandatoryOnCreate
  {
    if attrs == [] then {}
    else
      var n := |attrs| - 1;
      GivenEntries(vendor, attrs[..n]) + if IsMandatory(vendor, attrs[n]) then {Find(vendor, attrs[n])} else {}
  }

  lemma {:induction false} GivenEntriesComplete(vendor: seq<VendorAttr>, attrs: seq<AttrId>, i: nat)
    requires i < |attrs| && IsMandatory(vendor, attrs[i])
    ensures Find(vendor, attrs[i]) in GivenEntries(vendor, attrs)
  {
    var n := |attrs| - 1;
    if i == n {
    } else {
      GivenEntriesComplete(vendor, attrs[..n], i);
    }
  }

  /** How often a list names a mandatory attribute that it has named before. */
  function Repeats(vendor: seq<VendorAttr>, attrs: seq<AttrId>): nat {
    if attrs == [] then 0
    else
      var n := |attrs| - 1;
      Repeats(vendor, attrs[..n]) + if IsMandatory(vendor, attrs[n]) && attrs[n] in attrs[..n] then 1 else 0
  }

  /** The positions of the mandatory entries that a list does not name. */
  function MissingEntries(vendor: seq<VendorAttr>, attrs: seq<AttrId>): set<nat> {
    set k | 0 <= k < |vendor| && vendor[k].mandatoryOnCreate && vendor[k].id !in attrs
  }

  /** How many mandatory attributes a list leaves out. */
  function Missing(vendor: seq<VendorAttr>, attrs: seq<AttrId>): nat {
    |MissingEntries(vendor, attrs)|
  }

  lemma RepeatedMeansGiven(vendor: seq<VendorAttr>, attrs: seq<AttrId>, id: AttrId)
    requires IsMandatory(vendor, id)
    ensures Find(vendor, id) in GivenEntries(vendor, attrs) <==> id in attrs
  {
    if id in attrs {
      var i :| 0 <= i < |attrs| && attrs[i] == id;
      GivenEntriesComplete(vendor, attrs, i);
    }
  }

  lemma {:induction false} GivenEntriesSize(vendor: seq<VendorAttr>, attrs: seq<AttrId>)
    ensures MandatoryGiven(vendor, attrs) == |GivenEntries(vendor, attrs)| + Repeats(vendor, attrs)
  {
    if attrs == [] {
    } else {
      var n := |attrs| - 1;
      var rest, last := attrs[..n], attrs[n];
      GivenEntriesSize(vendor, rest);
      if IsMandatory(vendor, last) {
        RepeatedMeansGiven(vendor, rest, last);
        AddSize(GivenEntries(vendor, rest), Find(vendor, last));
        assert GivenEntries(vendor, attrs) == GivenEntries(vendor, rest) + {Find(vendor, last)};
        assert Repeats(vendor, attrs) == Repeats(vendor, rest) + if last in rest then 1 else 0;
        assert MandatoryGiven(vendor, attrs) == MandatoryGiven(vendor, rest) + 1;
      } else {
        assert GivenEntries(vendor, attrs) == GivenEntries(vendor, rest);
      }
    }
  }

  lemma GivenOrMissing(vendor: seq<VendorAttr>, attrs: seq<AttrId>)
    requires UniqueIds(vendor)
    ensures MandatoryEntries(vendor) == GivenEntries(vendor, attrs) + MissingEntries(vendor, attrs)
    ensures GivenEntries(vendor, attrs) !! MissingEntries(vendor, attrs)
  {
    forall k | k in MandatoryEntries(vendor) && vendor[k].id in attrs
      ensures k in GivenEntries(vendor, attrs)
    {
      var i :| 0 <= i < |attrs| && attrs[i] == vendor[k].id;
      FindUnique(vendor, k);
      GivenEntriesComplete(vendor, attrs, i);
    }
  }

  /** The two counters differ by what is missing and what is repeated, for every list: a repeated
      mandatory attribute makes up for a missing one. */
  lemma CountersBalance(vendor: seq<VendorAttr>, attrs: seq<AttrId>)
    requires UniqueIds(vendor)
    ensures MandatoryGiven(vendor, attrs) + Missing(vendor, attrs) == MandatoryTotal(vendor) + Repeats(vendor, attrs)
  {
    GivenEntriesSize(vendor, attrs);
    GivenOrMissing(vendor, attrs);
    assert |MandatoryEntries(vendor)| == |GivenEntries(vendor, attrs)| + |MissingEntries(vendor, attrs)|;
  }

  lemma CompleteMeansNoneMissing(vendor: seq<VendorAttr>, attrs: seq<AttrId>)
    ensures Complete(vendor, attrs) <==> Missing(vendor, attrs) == 0
  {
    if Complete(vendor, attrs) {
      forall k ensures k !in MissingEntries(vendor, attrs) {
        assert 0 <= k < |vendor| ==> vendor[k] in vendor;
      }
    } else {
      var e :| e in vendor && e.mandatoryOnCreate && e.id !in attrs;
      var k :| 0 <= k < |vendor| && vendor[k] == e;
      assert k in MissingEntries(vendor, attrs);
    }
  }

  /** Comparing the counters answers whether the list is complete exactly when a complete list
      repeats no mandatory attribute, and an incomplete one does not repeat as many as it leaves
      out. Repeating an optional attribute is harmless. */
  lemma CountersAgree(vendor: seq<VendorAttr>, attrs: seq<AttrId>)
    requires UniqueIds(vendor)
    ensures (MandatoryGiven(vendor, attrs) == MandatoryTotal(vendor) <==> Complete(vendor, attrs))
       <==> if Missing(vendor, attrs) == 0 then Repeats(vendor, attrs) == 0
            else Repeats(vendor, attrs) != Missing(vendor, attrs)
  {
    CountersBalance(vendor, attrs);
    CompleteMeansNoneMissing(vendor, attrs);
  }

  lemma {:induction false} NoRepeats(vendor: seq<VendorAttr>, attrs: seq<AttrId>)
    requires Distinct(attrs)
    ensures Repeats(vendor, attrs) == 0
  {
    if attrs == [] {
    } else {
      NoRepeats(vendor, attrs[..|attrs| - 1]);
    }
  }

  /** Distinct known attributes are no more than the table has entries. */
  lemma LengthGuard(vendor: seq<VendorAttr>, attrs: seq<AttrId>)
    requires Distinct(attrs) && AllKnown(vendor, attrs)
    ensures |attrs| <= |vendor|
  {
    SubsetSize(Entries(vendor, attrs), Below(|vendor|));
  }

  ghost predicate AllUsable(vendor: seq<VendorAttr>, attrs: seq<AttrId>, op: Operation) {
    forall id | id in attrs :: Usable(vendor, id, op)
  }

  lemma FaultlessMeansUsable(vendor: seq<VendorAttr>, attrs: seq<AttrId>, op: Operation)
    requires UniqueIds(vendor)
    ensures AllUsable(vendor, attrs, op) <==> FirstFault(vendor, attrs, op, 0) == |attrs|
    ensures AllUsable(vendor, attrs, op) ==> AllKnown(vendor, attrs)
  {
    forall id ensures Usable(vendor, id, op) <==> FaultOf(vendor, id, op) == None {
      UsableIsFaultless(vendor, id, op);
    }
    var i := FirstFault(vendor, attrs, op, 0);
    if i < |attrs| {
      assert attrs[i] in attrs;
    }
  }

  /** What validation accepts, for any list: every attribute is usable, the list is no longer than
      the table, and besides: for create, it repeats as many mandatory attributes as it leaves
      out; for the others, it is not empty. */
  lemma ValidateExact(vendor: seq<VendorAttr>, attrs: seq<AttrId>, op: Operation, span: AttrFault -> nat)
    requires UniqueIds(vendor)
    ensures Validated(Some(attrs), |attrs|, vendor, op, span) == Success
       <==> && AllUsable(vendor, attrs, op) && |attrs| <= |vendor|
            && if op == Create then Repeats(vendor, attrs) == Missing(vendor, attrs) else attrs != []
  {
    assert attrs[..|attrs|] == attrs;
    FaultlessMeansUsable(vendor, attrs, op);
    CountersBalance(vendor, attrs);
  }

  /** What validation answers when an attribute is not usable: the fault of the first such attribute
      with its position, or the plain parameter error when the position has no code. */
  lemma FaultReported(vendor: seq<VendorAttr>, attrs: seq<AttrId>, op: Operation, span: AttrFault -> nat)
    returns (i: nat, fault: AttrFault)
    requires UniqueIds(vendor) && |attrs| <= |vendor| && !AllUsable(vendor, attrs, op)
    ensures i < |attrs| && !Usable(vendor, attrs[i], op) && HasFault(vendor, attrs[i], op, fault)
    ensures forall j | 0 <= j < i :: Usable(vendor, attrs[j], op)
    ensures Validated(Some(attrs), |attrs|, vendor, op, span)
         == if i < span(fault) then AttrStatus(fault, i) else InvalidParameter
  {
    assert attrs[..|attrs|] == attrs;
    FaultlessMeansUsable(vendor, attrs, op);
    i := FirstFault(vendor, attrs, op, 0);
    fault := FaultOf(vendor, attrs[i], op).value;
    FaultMeans(vendor, attrs[i], op, fault);
    forall j | 0 <= j < i ensures Usable(vendor, attrs[j], op) {
      UsableIsFaultless(vendor, attrs[j], op);
    }
  }

  /** The other refusals: a list that is null although it should hold something, a list longer than
      the table, a list without attributes for another operation than create, and a create whose
      counters differ. A create may come without a list. */
  lemma OtherAnswers(vendor: seq<VendorAttr>, attrs: seq<AttrId>, op: Operation, span: AttrFault -> nat, count: nat)
    requires UniqueIds(vendor)
    ensures Validated(None, count, vendor, op, span)
         == if op == Create && count == 0 then Validated(Some([]), 0, vendor, op, span) else InvalidParameter
    ensures |attrs| > |vendor| || (op != Create && attrs == []) ==>
              Validated(Some(attrs), |attrs|, vendor, op, span) == InvalidParameter
    ensures op == Create && |attrs| <= |vendor| && AllUsable(vendor, attrs, op)
            && Repeats(vendor, attrs) != Missing(vendor, attrs) ==>
              Validated(Some(attrs), |attrs|, vendor, op, span) == MandatoryAttributeMissing
  {
    assert attrs[..|attrs|] == attrs;
    FaultlessMeansUsable(vendor, attrs, op);
    CountersBalance(vendor, attrs);
  }

  /** What validation is for: every attribute is usable, and no mandatory attribute is left out of
      a create, nor anything asked without naming an attribute. */
  ghost predicate Good(vendor: seq<VendorAttr>, attrs: seq<AttrId>, op: Operation) {
    AllUsable(vendor, attrs, op) && if op == Create then Complete(vendor, attrs) else attrs != []
  }

  /** Validation is right about a list exactly when, its attributes being usable: a complete list
      repeats no mandatory attribute and fits the table, and an incomplete one does not make up by
      repeats for what it leaves out, unless it does not fit the table. The lists of the other
      operations have to fit the table. */
  lemma ValidateRight(vendor: seq<VendorAttr>, attrs: seq<AttrId>, op: Operation, span: AttrFault -> nat)
    requires UniqueIds(vendor)
    ensures (Validated(Some(attrs), |attrs|, vendor, op, span) == Success <==> Good(vendor, attrs, op))
       <==> (AllUsable(vendor, attrs, op) ==>
               if op != Create then attrs == [] || |attrs| <= |vendor|
               else if Missing(vendor, attrs) == 0 then Repeats(vendor, attrs) == 0 && |attrs| <= |vendor|
               else |attrs| > |vendor| || Repeats(vendor, attrs) != Missing(vendor, attrs))
  {
    ValidateExact(vendor, attrs, op, span);
    CompleteMeansNoneMissing(vendor, attrs);
  }

  /** In particular it is right about every list without duplicates, and the guard on the length
      rejects no good one. */
  lemma ValidateWithoutDuplicates(vendor: seq<VendorAttr>, attrs: seq<AttrId>, op: Operation, span: AttrFault -> nat)
    requires UniqueIds(vendor) && Distinct(attrs)
    ensures Validated(Some(attrs), |attrs|, vendor, op, span) == Success <==> Good(vendor, attrs, op)
  {
    ValidateRight(vendor, attrs, op, span);
    NoRepeats(vendor, attrs);
    FaultlessMeansUsable(vendor, attrs, op);
    if AllUsable(vendor, attrs, op) {
      LengthGuard(vendor, attrs);
    }
  }

  /** A list that validation is wrong about: naming one mandatory attribute twice makes up for the
      missing one. */
  lemma DuplicatesFoolTheCounters(span: AttrFault -> nat)
    ensures var vendor := [VendorAttr(1, true, true, true, true, true, true),
                           VendorAttr(2, true, true, true, true, true, true)];
            && Validated(Some([1, 1]), 2, vendor, Create, span) == Success
            && !Complete(vendor, [1, 1])
  {
    var a := VendorAttr(1, true, true, true, true, true, true);
    var b := VendorAttr(2, true, true, true, true, true, true);
    var vendor := [a, b];
    assert Find(vendor, 1) == 0;
    assert vendor[..1] == [a] && [a][..0] == [];
    assert MandatoryTotal([a]) == 1;
    assert [1, 1][..1] == [1] && [1][..0] == [];
    assert MandatoryGiven(vendor, [1]) == 1;
    assert [1, 1][..2] == [1, 1];
    assert b in vendor;
  }

  /** And the other way round: naming the one mandatory attribute twice gets a complete list
      rejected. */
  lemma RepeatIsRejected(span: AttrFault -> nat)
    ensures var vendor := [VendorAttr(1, true, true, true, true, true, true),
                           VendorAttr(2, false, true, true, true, true, true)];
            && Validated(Some([1, 1]), 2, vendor, Create, span) == MandatoryAttributeMissing
            && Good(vendor, [1, 1], Create)
  {
    var a := VendorAttr(1, true, true, true, true, true, true);
    var b := VendorAttr(2, false, true, true, true, true, true);
    var vendor := [a, b];
    assert Find(vendor, 1) == 0;
    assert vendor[..1] == [a] && [a][..0] == [];
    assert MandatoryTotal([a]) == 1;
    assert [1, 1][..1] == [1] && [1][..0] == [];
    assert MandatoryGiven(vendor, [1]) == 1;
    assert [1, 1][..2] == [1, 1];
    assert a in vendor && FaultOf(vendor, 1, Create) == None;
    UsableIsFaultless(vendor, 1, Create);
  }
}
