/** Port breakout: groups of ports in the port table change mode together. */
module PortBreakout {
  import opened SaiTypes

  datatype BreakoutMode = OneLane | TwoLane | FourLane | ModeMax

  /** A capability bit is known by its position, a bit mask is the set of its one bits: "and" is
      intersection, "or" is union, "and not" is difference. */
  type Capb = nat

  type Mask = set<Capb>

  const CAP_BREAKOUT: Capb := 0

  const CAP_1X: Capb := 1

  const CAP_2X: Capb := 2

  const CAP_4X: Capb := 3

  const ONE_LANE_BITMAP: nat := 0x1

  const TWO_LANE_BITMAP: nat := 0x5

  const FOUR_LANE_BITMAP: nat := 0xF

  datatype Media = NotPresent | MediaType(code: nat)

  /** One record of the port table. */
  datatype PortInfo = PortInfo(
    saiPortId: Oid,
    portValid: bool,
    phyPortId: nat,
    supportedCapb: Mask,
    enabledCapb: Mask,
    maxLanes: nat,
    laneBmap: nat,
    speed: nat,
    attrSpeed: nat,
    media: Media)

  datatype BreakoutConfig = BreakoutConfig(currMode: BreakoutMode, newMode: BreakoutMode, newSpeed: nat)

  function CapbFromMode(mode: BreakoutMode): Capb {
    match mode
    case TwoLane => CAP_2X
    case FourLane => CAP_4X
    case _ => CAP_1X
  }

  function ModeFromCapb(capb: Capb): BreakoutMode {
    if capb == CAP_2X then TwoLane else if capb == CAP_4X then FourLane else OneLane
  }

  /** Lanes per port in a mode. */
  function LaneCount(mode: BreakoutMode): nat {
    match mode
    case FourLane => 1
    case TwoLane => 2
    case _ => 4
  }

  /** Ports per group in a mode. */
  function PortCount(mode: BreakoutMode): nat {
    match mode
    case FourLane => 4
    case TwoLane => 2
    case _ => 1
  }

  function ModeFromPortCount(count: nat): BreakoutMode {
    match count
    case 4 => FourLane
    case 2 => TwoLane
    case 1 => OneLane
    case _ => ModeMax
  }

  predicate CapbSupported(p: PortInfo, capb: Capb) {
    capb in p.supportedCapb
  }

  predicate BreakoutEnabled(p: PortInfo) {
    CAP_BREAKOUT in p.enabledCapb
  }

  function CurrentMode(p: PortInfo): BreakoutMode {
    if CAP_2X in p.enabledCapb then ModeFromCapb(CAP_2X)
    else if CAP_4X in p.enabledCapb then ModeFromCapb(CAP_4X)
    else ModeFromCapb(CAP_1X)
  }

  // ---------------------------------------------------------------- one update, on values

  /** Enable or disable those of the capabilities that the port supports. */
  function WithCapability(p: PortInfo, enable: bool, capb: Mask): PortInfo {
    var c := capb * p.supportedCapb;
    p.(enabledCapb := if enable then p.enabledCapb + c else p.enabledCapb - c)
  }

  /** The capabilities an update switches off and on. */
  function Cleared(cfg: BreakoutConfig): Mask {
    if cfg.newMode == OneLane then {CAP_BREAKOUT, CapbFromMode(cfg.currMode)} else {CapbFromMode(cfg.currMode)}
  }

  function Raised(cfg: BreakoutConfig): Mask {
    if cfg.newMode == OneLane then {CAP_1X} else {CAP_BREAKOUT, CapbFromMode(cfg.newMode)}
  }

  function Switched(p: PortInfo, cfg: BreakoutConfig): PortInfo {
    WithCapability(WithCapability(p, false, Cleared(cfg)), true, Raised(cfg))
  }

  function LaneBitmap(mode: BreakoutMode): nat {
    match mode
    case FourLane => ONE_LANE_BITMAP
    case TwoLane => TWO_LANE_BITMAP
    case _ => FOUR_LANE_BITMAP
  }

  function ControlAfter(p: PortInfo, cfg: BreakoutConfig): PortInfo {
    if cfg.newMode == ModeMax then p
    else Switched(p, cfg).(speed := cfg.newSpeed, attrSpeed := cfg.newSpeed, laneBmap := LaneBitmap(cfg.newMode))
  }

  /** Which ports of a group carry lanes of their own in a mode. */
  predicate ActiveLane(mode: BreakoutMode, lane: nat) {
    lane == 0 || mode == FourLane || (mode == TwoLane && lane == 2)
  }

  function SubsidiaryAfter(p: PortInfo, lane: nat, media: Media, cfg: BreakoutConfig): PortInfo
    requires lane > 0
  {
    if cfg.newMode == ModeMax then p
    else
      var active := ActiveLane(cfg.newMode, lane);
      var q := Switched(p, cfg).(portValid := active, media := if cfg.newMode == OneLane then NotPresent else media);
      if active then q.(speed := cfg.newSpeed, attrSpeed := cfg.newSpeed) else q
  }

  /** The table after an update of the group whose control port is at position `i`. */
  function PortAfter(ports: seq<PortInfo>, i: nat, cfg: BreakoutConfig, k: nat): PortInfo
    requires i < |ports| && k < |ports|
  {
    if k == i then ControlAfter(ports[i], cfg)
    else if i < k < i + ports[i].maxLanes then SubsidiaryAfter(ports[k], k - i, ports[i].media, cfg)
    else ports[k]
  }

  function Updated(ports: seq<PortInfo>, i: nat, cfg: BreakoutConfig): (r: seq<PortInfo>)
    requires i < |ports|
    ensures |r| == |ports|
    ensures forall k | 0 <= k < |ports| :: r[k] == PortAfter(ports, i, cfg, k)
  {
    seq(|ports|, k requires 0 <= k < |ports| => PortAfter(ports, i, cfg, k))
  }

  // ---------------------------------------------------------------- the table in place

  /** The table is an array of records in key order; the position after `i` is the next record. */
  method CapabilityEnableUpdate(table: array<PortInfo>, i: nat, enable: bool, capb: Mask)
    requires i < table.Length
    modifies table
    ensures table[i] == WithCapability(old(table[i]), enable, capb)
    ensures forall k | 0 <= k < table.Length && k != i :: table[k] == old(table[k])
  {
    var supported := capb * table[i].supportedCapb;
    if enable {
      table[i] := table[i].(enabledCapb := table[i].enabledCapb + supported);
    } else {
      table[i] := table[i].(enabledCapb := table[i].enabledCapb - supported);
    }
  }

  /** The three branches of the update; each sets the control port, then walks the others. */
  method ToOneLane(table: array<PortInfo>, control: nat, cfg: BreakoutConfig)
    requires control < table.Length && control + table[control].maxLanes <= table.Length && cfg.newMode == OneLane
    modifies table
    ensures table[..] == Updated(old(table[..]), control, cfg)
  {
    ghost var before := table[..];
    var i := control;
    var maxLanes: int := table[i].maxLanes;
    table[i] := table[i].(speed := cfg.newSpeed, attrSpeed := cfg.newSpeed, laneBmap := FOUR_LANE_BITMAP);
    var cap := {CAP_BREAKOUT, CapbFromMode(cfg.currMode)};
    CapabilityEnableUpdate(table, i, false, cap);
    CapabilityEnableUpdate(table, i, true, {CAP_1X});
    var lane: int := 1;
    while lane < maxLanes
      invariant 1 <= lane && (lane <= maxLanes || maxLanes == 0) && i == control + lane - 1
      invariant forall k | 0 <= k < table.Length ::
        table[k] == if k <= i then PortAfter(before, control, cfg, k) else before[k]
      decreases maxLanes - lane
    {
      i := i + 1;
      CapabilityEnableUpdate(table, i, false, cap);
      CapabilityEnableUpdate(table, i, true, {CAP_1X});
      table[i] := table[i].(portValid := false);
      table[i] := table[i].(media := NotPresent);
      lane := lane + 1;
    }
  }

  method ToFourLane(table: array<PortInfo>, control: nat, cfg: BreakoutConfig)
    requires control < table.Length && control + table[control].maxLanes <= table.Length && cfg.newMode == FourLane
    modifies table
    ensures table[..] == Updated(old(table[..]), control, cfg)
  {
    ghost var before := table[..];
    var i := control;
    var prev := CapbFromMode(cfg.currMode);
    var maxLanes: int := table[i].maxLanes;
    table[i] := table[i].(laneBmap := ONE_LANE_BITMAP, speed := cfg.newSpeed, attrSpeed := cfg.newSpeed);
    CapabilityEnableUpdate(table, i, false, {prev});
    var cap := {CAP_BREAKOUT, CAP_4X};
    CapabilityEnableUpdate(table, i, true, cap);
    var media := table[i].media;
    var lane: int := 1;
    while lane < maxLanes
      invariant 1 <= lane && (lane <= maxLanes || maxLanes == 0) && i == control + lane - 1
      invariant forall k | 0 <= k < table.Length ::
        table[k] == if k <= i then PortAfter(before, control, cfg, k) else before[k]
      decreases maxLanes - lane
    {
      i := i + 1;
      table[i] := table[i].(portValid := true, speed := cfg.newSpeed, attrSpeed := cfg.newSpeed);
      table[i] := table[i].(media := media);
      CapabilityEnableUpdate(table, i, false, {prev});
      CapabilityEnableUpdate(table, i, true, cap);
      lane := lane + 1;
    }
  }

  method ToTwoLane(table: array<PortInfo>, control: nat, cfg: BreakoutConfig)
    requires control < table.Length && control + table[control].maxLanes <= table.Length && cfg.newMode == TwoLane
    modifies table
    ensures table[..] == Updated(old(table[..]), control, cfg)
  {
    ghost var before := table[..];
    var i := control;
    var prev := CapbFromMode(cfg.currMode);
    var maxLanes: int := table[i].maxLanes;
    table[i] := table[i].(laneBmap := TWO_LANE_BITMAP, speed := cfg.newSpeed, attrSpeed := cfg.newSpeed);
    CapabilityEnableUpdate(table, i, false, {prev});
    var cap := {CAP_BREAKOUT, CAP_2X};
    CapabilityEnableUpdate(table, i, true, cap);
    var media := table[i].media;
    var lane: int := 1;
    while lane < maxLanes
      invariant 1 <= lane && (lane <= maxLanes || maxLanes == 0) && i == control + lane - 1
      invariant forall k | 0 <= k < table.Length ::
        table[k] == if k <= i then PortAfter(before, control, cfg, k) else before[k]
      decreases maxLanes - lane
    {
      i := i + 1;
      if lane == 2 {
        table[i] := table[i].(portValid := true, speed := cfg.newSpeed, attrSpeed := cfg.newSpeed);
      } else {
        table[i] := table[i].(portValid := false);
      }
      table[i] := table[i].(media := media);
      CapabilityEnableUpdate(table, i, false, {prev});
      CapabilityEnableUpdate(table, i, true, cap);
      lane := lane + 1;
    }
  }

  method BreakoutModeUpdate(table: array<PortInfo>, control: nat, cfg: BreakoutConfig) returns (rc: Status)
    requires control < table.Length && control + table[control].maxLanes <= table.Length
    modifies table
    ensures rc == Success && table[..] == Updated(old(table[..]), control, cfg)
  {
    if cfg.newMode == OneLane {
      ToOneLane(table, control, cfg);
    } else if cfg.newMode == FourLane {
      ToFourLane(table, control, cfg);
    } else if cfg.newMode == TwoLane {
      ToTwoLane(table, control, cfg);
    }
    return Success;
  }

  // ---------------------------------------------------------------- supported modes

  const BREAKOUT_MODES: seq<BreakoutMode> := [OneLane, TwoLane, FourLane]

  /** The modes among the first `n` whose capability is supported, in order. */
  function ModesFound(p: PortInfo, n: nat): (r: seq<BreakoutMode>)
    requires n <= 3
    ensures |r| <= n
  {
    if n == 0 then []
    else
      ModesFound(p, n - 1)
      + if CapbSupported(p, CapbFromMode(BREAKOUT_MODES[n - 1])) then [BREAKOUT_MODES[n - 1]] else []
  }

  lemma AllModesFound(p: PortInfo)
    ensures forall m :: m in ModesFound(p, 3) <==> m != ModeMax && CapbSupported(p, CapbFromMode(m))
    ensures |ModesFound(p, 3)| == 3 <==> {CAP_1X, CAP_2X, CAP_4X} <= p.supportedCapb
  {
    var one := ModesFound(p, 1);
    assert one == if CapbSupported(p, CAP_1X) then [OneLane] else [];
    var two := ModesFound(p, 2);
    assert two == one + if CapbSupported(p, CAP_2X) then [TwoLane] else [];
  }

  /** Fill a list of three slots, zeroed beforehand, with the supported modes. `zeroMode` is the
      mode whose enumeration value is 0. */
  method BreakModeListGet(p: PortInfo, zeroMode: BreakoutMode) returns (list: seq<BreakoutMode>)
    ensures |list| == 3
    ensures var n := |ModesFound(p, 3)|;
            list[..n] == ModesFound(p, 3) && forall j | n <= j < 3 :: list[j] == zeroMode
  {
    var available := [CAP_1X, CAP_2X, CAP_4X];
    list := [zeroMode, zeroMode, zeroMode];
    var count := 0;
    for i := 0 to 3
      invariant |list| == 3 && count == |ModesFound(p, i)|
      invariant list[..count] == ModesFound(p, i)
      invariant forall j | count <= j < 3 :: list[j] == zeroMode
    {
      if CapbSupported(p, available[i]) {
        list := list[count := ModeFromCapb(available[i])];
        count := count + 1;
      }
    }
  }

  /** A mode is found in the list when its bit is set; besides, since the count of modes found is
      never written back, slots that stayed 0 are searched as well. */
  predicate ModeListed(p: PortInfo, mode: BreakoutMode, zeroMode: BreakoutMode) {
    || (mode != ModeMax && CapbSupported(p, CapbFromMode(mode)))
    || (mode == zeroMode && !({CAP_1X, CAP_2X, CAP_4X} <= p.supportedCapb))
  }

  method IsBreakoutModeSupported(p: PortInfo, mode: BreakoutMode, zeroMode: BreakoutMode) returns (supported: bool)
    ensures supported <==> ModeListed(p, mode, zeroMode)
  {
    var list := BreakModeListGet(p, zeroMode);
    AllModesFound(p);
    ghost var n := |ModesFound(p, 3)|;
    assert list == list[..n] + list[n..];
    assert n < 3 ==> list[n] == zeroMode;
    supported := false;
    for i := 0 to 3
      invariant mode !in list[..i]
    {
      if list[i] == mode {
        if i < n {
          assert list[..n][i] == mode;
          assert mode in ModesFound(p, 3);
        } else {
          assert list[i] == zeroMode;
        }
        return true;
      }
    }
    assert list[..3] == list;
  }

  /** The answer is right about every mode but the one with value 0, and about that one exactly
      when its bit is set. */
  lemma ModeAnswerExact(p: PortInfo, mode: BreakoutMode, zeroMode: BreakoutMode)
    requires mode != ModeMax
    ensures (ModeListed(p, mode, zeroMode) <==> CapbSupported(p, CapbFromMode(mode)))
       <==> (mode == zeroMode ==> CapbFromMode(mode) in p.supportedCapb)
  {
    assert CapbFromMode(mode) in {CAP_1X, CAP_2X, CAP_4X};
  }

  /** A port with no capability at all is said to support the mode with value 0. */
  lemma UnsupportedModeListed(zeroMode: BreakoutMode)
    ensures var p := PortInfo(1, true, 1, {}, {}, 4, 0, 0, 0, NotPresent);
            ModeListed(p, zeroMode, zeroMode) && !CapbSupported(p, CapbFromMode(zeroMode))
  {
    assert CAP_1X in {CAP_1X, CAP_2X, CAP_4X};
  }

  // ---------------------------------------------------------------- hardware lane lists

  function Phys(ports: seq<PortInfo>, k: nat, count: nat): (r: seq<nat>)
    requires k + count <= |ports|
    ensures |r| == count && forall j | 0 <= j < count :: r[j] == ports[k + j].phyPortId
  {
    seq<nat>(count, j requires 0 <= j < count => ports[k + j].phyPortId)
  }

  /** The physical ids of `count` lanes from position `k` on: those of the records that follow,
      or consecutive numbers when the port does not support breakout. */
  function HwLanes(ports: seq<PortInfo>, k: nat, count: nat): Option<seq<nat>>
    requires k < |ports|
  {
    if !CapbSupported(ports[k], CAP_BREAKOUT) then
      Some(seq<nat>(count, j requires j >= 0 => (ports[k].phyPortId + j) % TWO_TO_THE_32))
    else if k + count <= |ports| then Some(Phys(ports, k, count))
    else None
  }

  function PortLaneCount(p: PortInfo): nat {
    if BreakoutEnabled(p) then LaneCount(CurrentMode(p)) else p.maxLanes
  }

  /** The record with the port's own id is the record itself, so the walk starts there. */
  method HwLaneListGet(table: array<PortInfo>, k: nat, laneCount: nat, lanes: array<nat>) returns (rc: Status)
    requires k < table.Length && 1 <= laneCount <= lanes.Length
    requires table[k].phyPortId < TWO_TO_THE_32
    modifies lanes
    ensures rc == if HwLanes(table[..], k, laneCount).Some? then Success else InvalidObjectId
    ensures rc == Success ==> lanes[..laneCount] == HwLanes(table[..], k, laneCount).value
    ensures table[..] == old(table[..])
  {
    var serdesPort := table[k].phyPortId;
    lanes[0] := serdesPort;
    var breakoutSupported := CapbSupported(table[k], CAP_BREAKOUT);
    var next := k;
    for curLane := 1 to laneCount
      invariant next == if breakoutSupported then k + curLane - 1 else k
      invariant next < table.Length
      invariant !breakoutSupported ==> serdesPort == (table[k].phyPortId + curLane - 1) % TWO_TO_THE_32
      invariant breakoutSupported ==> forall j | 0 <= j < curLane :: lanes[j] == table[k + j].phyPortId
      invariant !breakoutSupported ==>
                  forall j | 0 <= j < curLane :: lanes[j] == (table[k].phyPortId + j) % TWO_TO_THE_32
    {
      if breakoutSupported {
        next := next + 1;
        if next == table.Length {
          return InvalidObjectId;
        }
        serdesPort := table[next].phyPortId;
        lanes[curLane] := serdesPort;
      } else {
        serdesPort := (serdesPort + 1) % TWO_TO_THE_32;
        lanes[curLane] := serdesPort;
      }
    }
    return Success;
  }

  /** `buffer` is the caller's list and `count` its size. */
  method PortAttrHwLaneListGet(table: array<PortInfo>, k: nat, buffer: array<nat>, count: nat)
    returns (rc: Status, newCount: nat)
    requires k < table.Length && count <= buffer.Length
    requires table[k].phyPortId < TWO_TO_THE_32
    modifies buffer
    ensures var lanes := PortLaneCount(table[k]);
            && (table[k].maxLanes == 0 ==> rc == Failure && newCount == count)
            && (table[k].maxLanes > 0 && count < lanes ==> rc == BufferOverflow && newCount == lanes)
            && (table[k].maxLanes > 0 && count >= lanes ==>
                  rc == if HwLanes(table[..], k, lanes).Some? then Success else InvalidObjectId)
            && (rc == InvalidObjectId ==> newCount == count)
            && (rc == Success ==> newCount == lanes <= buffer.Length
                                  && buffer[..newCount] == HwLanes(table[..], k, lanes).value
                                  && buffer[newCount..] == old(buffer[newCount..]))
            && (rc != Success ==> buffer[..] == old(buffer[..]))
  {
    newCount := count;
    var laneCount := table[k].maxLanes;
    if laneCount == 0 {
      return Failure, newCount;
    }
    if BreakoutEnabled(table[k]) {
      laneCount := LaneCount(CurrentMode(table[k]));
    }
    if count < laneCount {
      return BufferOverflow, laneCount;
    }
    var lanes := new nat[laneCount](i => 0);
    rc := HwLaneListGet(table, k, laneCount, lanes);
    if rc == Success {
      ghost var list := lanes[..];
      for j := 0 to laneCount
        invariant lanes[..] == list && buffer[..j] == list[..j]
        invariant buffer[laneCount..] == old(buffer[laneCount..])
      {
        buffer[j] := lanes[j];
      }
      newCount := laneCount;
    }
  }

  // ---------------------------------------------------------------- validity when a port is created

  /** The flags after a create: in the two-lane mode only the ports that carry lanes are touched,
      and the walk stops at the end of the table. */
  function ValidityAfter(ports: seq<PortInfo>, control: nat, createPort: Oid, mode: BreakoutMode, k: nat): PortInfo
    requires control < |ports| && k < |ports|
  {
    if control <= k < control + ports[control].maxLanes
       && (mode == FourLane || (mode == TwoLane && (k == control || k == control + 2)))
    then ports[k].(portValid := ports[k].saiPortId == createPort)
    else ports[k]
  }

  method UpdateValidityOnCreate(table: array<PortInfo>, createPort: Oid, control: nat, mode: BreakoutMode)
    returns (rc: Status)
    requires control < table.Length
    modifies table
    ensures rc == Failure
    ensures forall k | 0 <= k < table.Length :: table[k] == ValidityAfter(old(table[..]), control, createPort, mode, k)
  {
    ghost var before := table[..];
    var maxLanes := table[control].maxLanes;
    var i := control;
    if mode == FourLane {
      for lane := 0 to maxLanes
        invariant i == control + lane <= table.Length
        invariant forall k | 0 <= k < table.Length ::
          table[k] == if k < i then ValidityAfter(before, control, createPort, mode, k) else before[k]
      {
        if i == table.Length {
          return Failure;
        }
        if createPort == table[i].saiPortId {
          table[i] := table[i].(portValid := true);
        } else {
          table[i] := table[i].(portValid := false);
        }
        i := i + 1;
      }
    } else if mode == TwoLane {
      for lane := 0 to maxLanes
        invariant i == control + lane <= table.Length
        invariant forall k | 0 <= k < table.Length ::
          table[k] == if k < i then ValidityAfter(before, control, createPort, mode, k) else before[k]
      {
        if i == table.Length {
          return Failure;
        }
        if lane == 0 || lane == 2 {
          if createPort == table[i].saiPortId {
            table[i] := table[i].(portValid := true);
          } else {
            table[i] := table[i].(portValid := false);
          }
        }
        i := i + 1;
      }
    }
    return Failure;
  }
}
