/** What every run of breakout updates keeps: modes are tracked, and the hardware lanes of a group
    are partitioned among its valid ports. */
module BreakoutRuns {
  import opened SaiTypes
  import opened Bits
  import opened PortBreakout

  /** A group of ports: consecutive records, the first of which is the control port. */
  datatype Group = Group(start: nat, size: nat)

  predicate InTable(ports: seq<PortInfo>, g: Group) {
    1 <= g.size && g.start + g.size <= |ports|
  }

  /** A port of a group in a proper mode: exactly the bit of the mode is enabled, the breakout bit
      tells broken-out modes apart, and the port is valid when it carries lanes of its own. */
  predicate PortInMode(p: PortInfo, lane: nat, m: BreakoutMode) {
    && m != ModeMax
    && p.enabledCapb <= p.supportedCapb
    && CAP_BREAKOUT in p.supportedCapb
    && (CAP_BREAKOUT in p.enabledCapb <==> m != OneLane)
    && p.enabledCapb * {CAP_1X, CAP_2X, CAP_4X} == {CapbFromMode(m)}
    && p.portValid == ActiveLane(m, lane)
  }

  ghost predicate GroupInMode(ports: seq<PortInfo>, g: Group, m: BreakoutMode) {
    && InTable(ports, g)
    && ports[g.start].maxLanes == g.size
    && forall k | g.start <= k < g.start + g.size :: PortInMode(ports[k], k - g.start, m)
  }

  /** Every port of the group supports the mode. */
  predicate GroupSupports(ports: seq<PortInfo>, g: Group, m: BreakoutMode)
    requires InTable(ports, g)
  {
    forall k | g.start <= k < g.start + g.size :: CapbSupported(ports[k], CapbFromMode(m))
  }

  function ModeAfter(m: BreakoutMode, cfg: BreakoutConfig): BreakoutMode {
    if cfg.newMode == ModeMax then m else cfg.newMode
  }

  // ---------------------------------------------------------------- capability bits

  /** Whatever the claimed and the new mode are, an update leaves exactly the bit of the new mode
      enabled if and only if the new mode is supported and no bit but those of the claimed and
      the new mode was enabled before. */
  lemma ExactlyNewMode(p: PortInfo, cfg: BreakoutConfig)
    requires p.enabledCapb <= p.supportedCapb && cfg.newMode != ModeMax
    ensures Switched(p, cfg).enabledCapb * {CAP_1X, CAP_2X, CAP_4X} == {CapbFromMode(cfg.newMode)}
       <==> CapbFromMode(cfg.newMode) in p.supportedCapb
            && p.enabledCapb * {CAP_1X, CAP_2X, CAP_4X} <= {CapbFromMode(cfg.currMode), CapbFromMode(cfg.newMode)}
  {
    var e, n, c := Switched(p, cfg).enabledCapb, CapbFromMode(cfg.newMode), CapbFromMode(cfg.currMode);
    var modes := {CAP_1X, CAP_2X, CAP_4X};
    assert n in modes && n in Raised(cfg);
    forall b | b in modes
      ensures b in e <==> (b in p.enabledCapb && b != c) || (b == n && b in p.supportedCapb)
    {
    }
    if e * modes == {n} {
      assert n in e * modes;
      forall b | b in p.enabledCapb * modes ensures b in {c, n} {
        assert b in e ==> b in e * modes;
      }
    } else if n in p.supportedCapb {
      assert n in e;
      var b :| b in e * modes && b != n;
      assert b in p.enabledCapb * modes;
    }
  }

  /** Enabled capabilities stay within the supported ones, whatever the update. */
  lemma UpdateKeepsSupported(ports: seq<PortInfo>, i: nat, cfg: BreakoutConfig)
    requires i < |ports| && forall k | 0 <= k < |ports| :: ports[k].enabledCapb <= ports[k].supportedCapb
    ensures forall k | 0 <= k < |ports| ::
      Updated(ports, i, cfg)[k].enabledCapb <= Updated(ports, i, cfg)[k].supportedCapb
  {
  }

  lemma {:induction false} PortStep(p: PortInfo, lane: nat, media: Media, cfg: BreakoutConfig)
    requires PortInMode(p, lane, cfg.currMode)
    requires CapbFromMode(ModeAfter(cfg.currMode, cfg)) in p.supportedCapb
    ensures lane > 0 ==> PortInMode(SubsidiaryAfter(p, lane, media, cfg), lane, ModeAfter(cfg.currMode, cfg))
    ensures lane == 0 ==> PortInMode(ControlAfter(p, cfg), lane, ModeAfter(cfg.currMode, cfg))
  {
    if cfg.newMode != ModeMax {
      ExactlyNewMode(p, cfg);
      var e := Switched(p, cfg).enabledCapb;
      assert CAP_BREAKOUT in e <==> cfg.newMode != OneLane;
    }
  }

  /** If the claimed mode is the actual mode and the new mode is supported, the whole group is in
      the new mode afterwards. */
  lemma UpdateTracksMode(ports: seq<PortInfo>, g: Group, cfg: BreakoutConfig)
    requires GroupInMode(ports, g, cfg.currMode) && GroupSupports(ports, g, ModeAfter(cfg.currMode, cfg))
    ensures GroupInMode(Updated(ports, g.start, cfg), g, ModeAfter(cfg.currMode, cfg))
  {
    var after := Updated(ports, g.start, cfg);
    forall k | g.start <= k < g.start + g.size
      ensures PortInMode(after[k], k - g.start, ModeAfter(cfg.currMode, cfg))
    {
      PortStep(ports[k], k - g.start, ports[g.start].media, cfg);
    }
  }

  /** The getter agrees with the tracked mode at every port of the group. */
  lemma GetterReturnsMode(ports: seq<PortInfo>, g: Group, m: BreakoutMode, k: nat)
    requires GroupInMode(ports, g, m) && g.start <= k < g.start + g.size
    ensures CurrentMode(ports[k]) == m
  {
    var p := ports[k];
    assert PortInMode(p, k - g.start, m);
    assert forall b | b in {CAP_1X, CAP_2X, CAP_4X} ::
      b in p.enabledCapb <==> b in p.enabledCapb * {CAP_1X, CAP_2X, CAP_4X};
  }

  // ---------------------------------------------------------------- lanes

  /** The hardware lane list of a port, as the attribute getter computes it. */
  function LaneList(ports: seq<PortInfo>, k: nat): Option<seq<nat>>
    requires k < |ports|
  {
    HwLanes(ports, k, PortLaneCount(ports[k]))
  }

  /** What one port adds to the lanes of its group. */
  function Contribution(ports: seq<PortInfo>, k: nat): seq<nat>
    requires k < |ports|
  {
    if ports[k].portValid && LaneList(ports, k).Some? then LaneList(ports, k).value else []
  }

  function Concat(parts: seq<seq<nat>>): seq<nat> {
    if parts == [] then [] else Concat(parts[..|parts| - 1]) + parts[|parts| - 1]
  }

  function Contributions(ports: seq<PortInfo>, g: Group): (r: seq<seq<nat>>)
    requires InTable(ports, g)
    ensures |r| == g.size && forall lane | 0 <= lane < g.size :: r[lane] == Contribution(ports, g.start + lane)
  {
    seq(g.size, lane requires 0 <= lane < g.size => Contribution(ports, g.start + lane))
  }

  /** The lane lists of the valid ports of a group, one after the other in table order. */
  function ListedLanes(ports: seq<PortInfo>, g: Group): seq<nat>
    requires InTable(ports, g)
  {
    Concat(Contributions(ports, g))
  }

  /** Every valid port of the group has a lane list, and the lists in table order are the physical
      ids of the group, each once. */
  ghost predicate Partitioned(ports: seq<PortInfo>, g: Group)
    requires InTable(ports, g)
  {
    && (forall k | g.start <= k < g.start + g.size && ports[k].portValid :: LaneList(ports, k).Some?)
    && ListedLanes(ports, g) == Phys(ports, g.start, g.size)
  }

  /** The lane list of a valid port of a tracked group: as many records from its own on as the
      mode gives a port lanes. */
  lemma PortLanes(ports: seq<PortInfo>, g: Group, m: BreakoutMode, k: nat)
    requires GroupInMode(ports, g, m) && g.start <= k < g.start + g.size && ports[k].portValid
    ensures PortLaneCount(ports[k]) == if m == OneLane then g.size else LaneCount(m)
    ensures LaneList(ports, k) == if k + PortLaneCount(ports[k]) <= |ports| then
                                    Some(Phys(ports, k, PortLaneCount(ports[k])))
                                  else None
  {
    assert PortInMode(ports[k], k - g.start, m);
    GetterReturnsMode(ports, g, m, k);
  }

  /** How many lanes the ports before lane `n` of a group list together. */
  function LanesBefore(m: BreakoutMode, size: nat, n: nat): nat {
    match m
    case FourLane => n
    case TwoLane => if n == 0 then 0 else if n <= 2 then 2 else 4
    case _ => if n == 0 then 0 else size
  }

  predicate IsSlice(parts: seq<seq<nat>>, whole: seq<nat>, cuts: seq<nat>, j: nat)
    requires j < |parts| < |cuts|
  {
    cuts[j] <= cuts[j + 1] <= |whole| && parts[j] == whole[cuts[j]..cuts[j + 1]]
  }

  /** Consecutive slices of a sequence, one after the other, are its beginning. */
  lemma {:induction false} ConcatSlices(parts: seq<seq<nat>>, whole: seq<nat>, cuts: seq<nat>, n: nat)
    requires n <= |parts| < |cuts| && cuts[0] == 0
    requires forall j | 0 <= j < |parts| :: IsSlice(parts, whole, cuts, j)
    ensures cuts[n] <= |whole| && Concat(parts[..n]) == whole[..cuts[n]]
  {
    if n == 0 {
    } else {
      ConcatSlices(parts, whole, cuts, n - 1);
      assert IsSlice(parts, whole, cuts, n - 1);
      assert parts[..n][..n - 1] == parts[..n - 1];
    }
  }

  lemma PhysSlice(ports: seq<PortInfo>, k: nat, n: nat, a: nat, b: nat)
    requires a <= b <= n && k + n <= |ports|
    ensures Phys(ports, k, n)[a..b] == Phys(ports, k + a, b - a)
  {
  }

  /** In a mode, one port adds the physical ids that follow those listed before it. */
  lemma ContributionInMode(ports: seq<PortInfo>, g: Group, m: BreakoutMode, n: nat)
    requires GroupInMode(ports, g, m) && n < g.size
    requires m == TwoLane ==> g.start + LanesBefore(m, g.size, n + 1) <= |ports|
    ensures var a, b := LanesBefore(m, g.size, n), LanesBefore(m, g.size, n + 1);
            && a <= b <= |ports| - g.start
            && Contribution(ports, g.start + n) == Phys(ports, g.start, |ports| - g.start)[a..b]
  {
    var k := g.start + n;
    var a, b := LanesBefore(m, g.size, n), LanesBefore(m, g.size, n + 1);
    assert PortInMode(ports[k], n, m);
    if ports[k].portValid {
      PortLanes(ports, g, m, k);
      assert a == n && b == a + PortLaneCount(ports[k]);
      PhysSlice(ports, g.start, |ports| - g.start, a, b);
    } else {
      assert a == b;
    }
  }

  function Cuts(m: BreakoutMode, size: nat): (cuts: seq<nat>)
    ensures |cuts| == size + 1 && forall j | 0 <= j <= size :: cuts[j] == LanesBefore(m, size, j)
  {
    seq(size + 1, j requires 0 <= j <= size => LanesBefore(m, size, j))
  }

  lemma ContributionIsSlice(ports: seq<PortInfo>, g: Group, m: BreakoutMode, j: nat)
    requires GroupInMode(ports, g, m) && j < g.size
    requires m == TwoLane ==> g.start + LanesBefore(m, g.size, j + 1) <= |ports|
    ensures IsSlice(Contributions(ports, g), Phys(ports, g.start, |ports| - g.start), Cuts(m, g.size), j)
  {
    ContributionInMode(ports, g, m, j);
  }

  lemma ContributionsAreSlices(ports: seq<PortInfo>, g: Group, m: BreakoutMode)
    requires GroupInMode(ports, g, m)
    requires m == TwoLane ==> g.start + LanesBefore(m, g.size, g.size) <= |ports|
    ensures var whole, parts, cuts := Phys(ports, g.start, |ports| - g.start), Contributions(ports, g), Cuts(m, g.size);
            forall j | 0 <= j < g.size :: IsSlice(parts, whole, cuts, j)
  {
    var whole, parts, cuts := Phys(ports, g.start, |ports| - g.start), Contributions(ports, g), Cuts(m, g.size);
    forall j | 0 <= j < g.size ensures IsSlice(parts, whole, cuts, j) {
      ContributionIsSlice(ports, g, m, j);
    }
  }

  /** As long as the lists stay inside the table, they are the records of the group in order. */
  lemma ListedInMode(ports: seq<PortInfo>, g: Group, m: BreakoutMode)
    requires GroupInMode(ports, g, m)
    requires m == TwoLane ==> g.start + LanesBefore(m, g.size, g.size) <= |ports|
    ensures g.start + LanesBefore(m, g.size, g.size) <= |ports|
    ensures ListedLanes(ports, g) == Phys(ports, g.start, LanesBefore(m, g.size, g.size))
  {
    ContributionsAreSlices(ports, g, m);
    var parts := Contributions(ports, g);
    ConcatSlices(parts, Phys(ports, g.start, |ports| - g.start), Cuts(m, g.size), g.size);
    assert parts[..g.size] == parts;
    PhysSlice(ports, g.start, |ports| - g.start, 0, LanesBefore(m, g.size, g.size));
  }

  /** In a tracked group the lanes are partitioned among the valid ports exactly when the mode is
      not the two-lane mode, or the group has two or four ports. */
  lemma PartitionExact(ports: seq<PortInfo>, g: Group, m: BreakoutMode)
    requires GroupInMode(ports, g, m)
    ensures Partitioned(ports, g) <==> (m == TwoLane ==> g.size in {2, 4})
  {
    assert PortInMode(ports[g.start], 0, m);
    if m != TwoLane || g.size in {2, 4} {
      ListedInMode(ports, g, m);
      forall k | g.start <= k < g.start + g.size && ports[k].portValid ensures LaneList(ports, k).Some? {
        assert PortInMode(ports[k], k - g.start, m);
        PortLanes(ports, g, m, k);
      }
    } else if Partitioned(ports, g) {
      PortLanes(ports, g, m, g.start);
      if g.size > 2 {
        assert PortInMode(ports[g.start + 2], 2, m);
        PortLanes(ports, g, m, g.start + 2);
      }
      ListedInMode(ports, g, m);
      assert false;
    }
  }

  /** One group that fills its table, every mode supported. */
  function ExampleGroup(size: nat, m: BreakoutMode): (ports: seq<PortInfo>)
    ensures |ports| == size
  {
    var enabled := if m == OneLane then {CAP_1X} else {CAP_BREAKOUT, CapbFromMode(m)};
    seq(size, lane requires lane >= 0 =>
      PortInfo(lane, ActiveLane(m, lane), lane, {CAP_BREAKOUT, CAP_1X, CAP_2X, CAP_4X}, enabled,
               size, LaneBitmap(m), 0, 0, NotPresent))
  }

  lemma ExampleInMode(size: nat, m: BreakoutMode)
    requires 1 <= size && m != ModeMax
    ensures GroupInMode(ExampleGroup(size, m), Group(0, size), m)
  {
    var ports := ExampleGroup(size, m);
    forall k | 0 <= k < size ensures PortInMode(ports[k], k, m) {
      assert ports[k].enabledCapb == if m == OneLane then {CAP_1X} else {CAP_BREAKOUT, CapbFromMode(m)};
    }
  }

  /** Eight ports in the two-lane mode are not partitioned: four of the lanes belong to no port. */
  lemma EightPortsInTwoLaneMode()
    ensures GroupInMode(ExampleGroup(8, TwoLane), Group(0, 8), TwoLane)
    ensures !Partitioned(ExampleGroup(8, TwoLane), Group(0, 8))
  {
    ExampleInMode(8, TwoLane);
    PartitionExact(ExampleGroup(8, TwoLane), Group(0, 8), TwoLane);
  }

  // ---------------------------------------------------------------- the fields of one record

  /** The lanes of a group whose ports are in use in a mode, by position. */
  predicate InUse(mode: BreakoutMode, lane: nat) {
    match mode
    case OneLane => lane == 0
    case TwoLane => lane == 0 || lane == 2
    case FourLane => true
    case ModeMax => false
  }

  /** The records an update walks over. */
  predicate Walks(ports: seq<PortInfo>, i: nat, k: nat)
    requires i < |ports|
  {
    k == i || i < k < i + ports[i].maxLanes
  }

  /** What an update leaves alone: every record it does not walk over, and of the others the ids, the
      supported capabilities, and every enabled capability that is not about breakout. */
  lemma UpdateLeavesAlone(ports: seq<PortInfo>, i: nat, cfg: BreakoutConfig, k: nat)
    requires i < |ports| && k < |ports|
    ensures var p, a := ports[k], Updated(ports, i, cfg)[k];
            && (cfg.newMode == ModeMax || !Walks(ports, i, k) ==> a == p)
            && a.saiPortId == p.saiPortId && a.phyPortId == p.phyPortId
            && a.supportedCapb == p.supportedCapb && a.maxLanes == p.maxLanes
            && (forall b | b > 3 :: b in a.enabledCapb <==> b in p.enabledCapb)
  {
  }

  /** What an update writes into the records it walks over: a port in use gets the new speed and any
      other keeps its own; the control port keeps its validity and its media and gets the lane
      bitmap; the others are valid when in use, and get the media of the control port, or none in
      the one-lane mode. */
  lemma UpdateWrites(ports: seq<PortInfo>, i: nat, cfg: BreakoutConfig, k: nat)
    requires i < |ports| && k < |ports| && Walks(ports, i, k) && cfg.newMode != ModeMax
    ensures var p, a := ports[k], Updated(ports, i, cfg)[k];
            && a.speed == (if InUse(cfg.newMode, k - i) then cfg.newSpeed else p.speed)
            && a.attrSpeed == (if InUse(cfg.newMode, k - i) then cfg.newSpeed else p.attrSpeed)
            && a.portValid == (if k == i then p.portValid else InUse(cfg.newMode, k - i))
            && a.media == (if k == i then p.media else if cfg.newMode == OneLane then NotPresent else ports[i].media)
            && (k > i ==> a.laneBmap == p.laneBmap)
            && (k == i ==> a.laneBmap == match cfg.newMode case FourLane => 0x1 case TwoLane => 0x5 case _ => 0xF)
  {
  }

  /** How a port's mode is read off its enabled capabilities: bits 1, 2 and 3 stand for one, two and
      four ports, and bit 2 is asked first; without bit 0 the port keeps all its lanes. */
  lemma ReportedMode(p: PortInfo)
    ensures CurrentMode(p) == if 2 in p.enabledCapb then TwoLane else if 3 in p.enabledCapb then FourLane else OneLane
    ensures PortLaneCount(p)
         == if 0 !in p.enabledCapb then p.maxLanes
            else if 2 in p.enabledCapb then 2 else if 3 in p.enabledCapb then 1 else 4
  {
  }

  /** The bit of each mode. */
  lemma ModeBits(m: BreakoutMode)
    requires m != ModeMax
    ensures CapbFromMode(m) == match m case OneLane => 1 case TwoLane => 2 case _ => 3
    ensures ModeFromCapb(CapbFromMode(m)) == m
  {
  }

  /** Which counts of ports are those of a mode, and of which. */
  lemma PortCountModes(count: nat)
    ensures ModeFromPortCount(count) == ModeMax <==> count !in {1, 2, 4}
    ensures count in {1, 2, 4} ==> PortCount(ModeFromPortCount(count)) == count
  {
  }

  // ---------------------------------------------------------------- lists without breakout

  /** The lanes of a port that does not support breakout are numbered one after the other, in 32-bit
      arithmetic, from its physical id on, wherever it stands in the table. */
  lemma SerialLanes(ports: seq<PortInfo>, k: nat, count: nat)
    requires k < |ports| && 0 !in ports[k].supportedCapb && 1 <= count && ports[k].phyPortId < TWO_TO_THE_32
    ensures var lanes := HwLanes(ports, k, count);
            && lanes.Some? && |lanes.value| == count && lanes.value[0] == ports[k].phyPortId
            && forall j | 0 <= j < count - 1 :: lanes.value[j + 1] == (lanes.value[j] + 1) % TWO_TO_THE_32
  {
  }

  // ---------------------------------------------------------------- whole runs

  /** An update of one of the groups. */
  datatype Update = Update(group: nat, cfg: BreakoutConfig)

  predicate Contains(g: Group, k: nat) {
    g.start <= k < g.start + g.size
  }

  ghost predicate Disjoint(groups: seq<Group>) {
    forall i, j, k | 0 <= i < j < |groups| && Contains(groups[i], k) :: !Contains(groups[j], k)
  }

  predicate Fits(size: nat, m: BreakoutMode) {
    m == TwoLane ==> size in {2, 4}
  }

  /** The group is in the mode its control port reports, and the mode suits its size. */
  ghost predicate Tracked(ports: seq<PortInfo>, g: Group) {
    && InTable(ports, g)
    && GroupInMode(ports, g, CurrentMode(ports[g.start]))
    && Fits(g.size, CurrentMode(ports[g.start]))
  }

  /** What a caller checks: the claimed mode is the reported one, and the new mode is supported by
      the ports of the group and suits their number. */
  ghost predicate Legal(ports: seq<PortInfo>, groups: seq<Group>, u: Update) {
    && u.group < |groups|
    && var g := groups[u.group];
       && InTable(ports, g)
       && u.cfg.currMode == CurrentMode(ports[g.start])
       && (u.cfg.newMode != ModeMax ==> GroupSupports(ports, g, u.cfg.newMode) && Fits(g.size, u.cfg.newMode))
  }

  ghost predicate Runs(ports: seq<PortInfo>, groups: seq<Group>, us: seq<Update>, end: seq<PortInfo>)
    decreases |us|
  {
    if us == [] then ports == end
    else
      && Legal(ports, groups, us[0])
      && Runs(Updated(ports, groups[us[0].group].start, us[0].cfg), groups, us[1..], end)
  }

  ghost predicate Inv(ports: seq<PortInfo>, groups: seq<Group>) {
    Disjoint(groups) && forall i | 0 <= i < |groups| :: Tracked(ports, groups[i])
  }

  /** An update leaves every record outside its group alone, and never touches the physical ids. */
  lemma UpdateIsLocal(ports: seq<PortInfo>, g: Group, cfg: BreakoutConfig)
    requires InTable(ports, g) && ports[g.start].maxLanes == g.size
    ensures forall k | 0 <= k < |ports| && !Contains(g, k) :: Updated(ports, g.start, cfg)[k] == ports[k]
    ensures forall k | 0 <= k < |ports| :: Updated(ports, g.start, cfg)[k].phyPortId == ports[k].phyPortId
  {
  }

  lemma LegalTracks(ports: seq<PortInfo>, g: Group, cfg: BreakoutConfig)
    requires Tracked(ports, g) && cfg.currMode == CurrentMode(ports[g.start])
    requires cfg.newMode != ModeMax ==> GroupSupports(ports, g, cfg.newMode) && Fits(g.size, cfg.newMode)
    ensures Tracked(Updated(ports, g.start, cfg), g)
  {
    var m := ModeAfter(cfg.currMode, cfg);
    forall k | g.start <= k < g.start + g.size ensures CapbSupported(ports[k], CapbFromMode(m)) {
      assert PortInMode(ports[k], k - g.start, cfg.currMode);
      assert CapbFromMode(cfg.currMode) in ports[k].enabledCapb * {CAP_1X, CAP_2X, CAP_4X};
    }
    UpdateTracksMode(ports, g, cfg);
    GetterReturnsMode(Updated(ports, g.start, cfg), g, m, g.start);
  }

  lemma OthersStayTracked(ports: seq<PortInfo>, after: seq<PortInfo>, g: Group)
    requires Tracked(ports, g) && |after| == |ports|
    requires forall k | 0 <= k < |ports| && Contains(g, k) :: after[k] == ports[k]
    ensures Tracked(after, g)
  {
    forall k | g.start <= k < g.start + g.size
      ensures PortInMode(after[k], k - g.start, CurrentMode(after[g.start]))
    {
      assert Contains(g, k) && Contains(g, g.start);
      assert PortInMode(ports[k], k - g.start, CurrentMode(ports[g.start]));
    }
    assert Contains(g, g.start);
  }

  lemma StepKeepsInv(ports: seq<PortInfo>, groups: seq<Group>, u: Update)
    requires Inv(ports, groups) && Legal(ports, groups, u)
    ensures Inv(Updated(ports, groups[u.group].start, u.cfg), groups)
  {
    var g := groups[u.group];
    var after := Updated(ports, g.start, u.cfg);
    UpdateIsLocal(ports, g, u.cfg);
    forall i | 0 <= i < |groups| ensures Tracked(after, groups[i]) {
      if i == u.group {
        LegalTracks(ports, g, u.cfg);
      } else {
        OthersStayTracked(ports, after, groups[i]);
      }
    }
  }

  lemma {:induction false} RunKeepsInv(ports: seq<PortInfo>, groups: seq<Group>, us: seq<Update>, end: seq<PortInfo>)
    requires Inv(ports, groups) && Runs(ports, groups, us, end)
    ensures Inv(end, groups) && |end| == |ports|
    ensures forall k | 0 <= k < |ports| :: end[k].phyPortId == ports[k].phyPortId
    ensures forall k | 0 <= k < |ports| &&
              (forall i | 0 <= i < |us| :: us[i].group < |groups| ==> !Contains(groups[us[i].group], k)) ::
              end[k] == ports[k]
    decreases |us|
  {
    if us == [] {
    } else {
      var g := groups[us[0].group];
      var next := Updated(ports, g.start, us[0].cfg);
      StepKeepsInv(ports, groups, us[0]);
      UpdateIsLocal(ports, g, us[0].cfg);
      RunKeepsInv(next, groups, us[1..], end);
    }
  }

  /** After any run of updates on disjoint groups, the hardware lane lists of the valid ports of
      every group are, in table order, the physical ids the group had at the start, each once; the
      getter reports one mode throughout the group; and records of groups that no update names
      are unchanged. */
  lemma LanesPartitionedInEveryRun(ports: seq<PortInfo>, groups: seq<Group>, us: seq<Update>, end: seq<PortInfo>)
    requires Inv(ports, groups) && Runs(ports, groups, us, end)
    ensures |end| == |ports|
    ensures forall i | 0 <= i < |groups| ::
              && InTable(end, groups[i])
              && Partitioned(end, groups[i])
              && ListedLanes(end, groups[i]) == Phys(ports, groups[i].start, groups[i].size)
              && GroupInMode(end, groups[i], CurrentMode(end[groups[i].start]))
    ensures forall k | 0 <= k < |ports| &&
              (forall i | 0 <= i < |us| :: us[i].group < |groups| ==> !Contains(groups[us[i].group], k)) ::
              end[k] == ports[k]
  {
    RunKeepsInv(ports, groups, us, end);
    forall i | 0 <= i < |groups|
      ensures Partitioned(end, groups[i])
      ensures Phys(end, groups[i].start, groups[i].size) == Phys(ports, groups[i].start, groups[i].size)
    {
      assert Tracked(end, groups[i]);
      PartitionExact(end, groups[i], CurrentMode(end[groups[i].start]));
    }
  }

  /** What one update does to the speed of a lane of a group. */
  function SpeedStep(speed: nat, u: Update, i: nat, lane: nat): nat {
    if u.group == i && InUse(u.cfg.newMode, lane) then u.cfg.newSpeed else speed
  }

  /** The speed of the last update of a run in whose mode the lane is in use, or the one it had. */
  function SpeedAfter(speed: nat, us: seq<Update>, i: nat, lane: nat): nat
    decreases |us|
  {
    if us == [] then speed else SpeedAfter(SpeedStep(speed, us[0], i, lane), us[1..], i, lane)
  }

  function ModeStep(mode: Option<BreakoutMode>, u: Update, i: nat): Option<BreakoutMode> {
    if u.group == i && u.cfg.newMode != ModeMax then Some(u.cfg.newMode) else mode
  }

  /** The last mode a run puts a group into. */
  function LastMode(mode: Option<BreakoutMode>, us: seq<Update>, i: nat): Option<BreakoutMode>
    decreases |us|
  {
    if us == [] then mode else LastMode(ModeStep(mode, us[0], i), us[1..], i)
  }

  /** What a group shows that was put into a mode, or into none yet. `before` is its control port
      and `p` the port of the lane at the start. */
  predicate Shows(q: PortInfo, before: PortInfo, p: PortInfo, lane: nat, mode: Option<BreakoutMode>) {
    match mode
    case None => q.portValid == p.portValid && q.media == p.media && q.laneBmap == p.laneBmap
    case Some(m) =>
      && q.portValid == InUse(m, lane)
      && q.media == (if lane == 0 then p.media else if m == OneLane then NotPresent else before.media)
      && q.laneBmap == (if lane > 0 then p.laneBmap else match m case FourLane => 0x1 case TwoLane => 0x5 case _ => 0xF)
  }

  lemma ShowsAfterUpdate(ports: seq<PortInfo>, g: Group, cfg: BreakoutConfig, lane: nat,
                         before: PortInfo, p: PortInfo, mode: Option<BreakoutMode>)
    requires Tracked(ports, g) && lane < g.size && cfg.newMode != ModeMax
    requires Shows(ports[g.start + lane], before, p, lane, mode) && ports[g.start].media == before.media
    requires lane == 0 ==> before == p
    ensures Shows(Updated(ports, g.start, cfg)[g.start + lane], before, p, lane, Some(cfg.newMode))
    ensures Updated(ports, g.start, cfg)[g.start].media == before.media
  {
    UpdateWrites(ports, g.start, cfg, g.start + lane);
    UpdateWrites(ports, g.start, cfg, g.start);
    assert PortInMode(ports[g.start], 0, CurrentMode(ports[g.start]));
  }

  lemma NotInBoth(groups: seq<Group>, i: nat, j: nat, x: nat)
    requires Disjoint(groups) && i < |groups| && j < |groups| && i != j
    ensures !(Contains(groups[i], x) && Contains(groups[j], x))
  {
    var a, b := if i < j then i else j, if i < j then j else i;
    assert Contains(groups[a], x) ==> !Contains(groups[b], x);
  }

  /** One step of a run, seen from one lane of one group. */
  lemma StepShows(ports: seq<PortInfo>, groups: seq<Group>, u: Update, i: nat, lane: nat,
                  before: PortInfo, p: PortInfo, mode: Option<BreakoutMode>)
    requires Inv(ports, groups) && Legal(ports, groups, u) && i < |groups| && lane < groups[i].size
    requires InTable(ports, groups[i])
    requires Shows(ports[groups[i].start + lane], before, p, lane, mode) && ports[groups[i].start].media == before.media
    requires lane == 0 ==> before == p
    ensures var k, next := groups[i].start + lane, Updated(ports, groups[u.group].start, u.cfg);
            && |next| == |ports|
            && Shows(next[k], before, p, lane, ModeStep(mode, u, i))
            && next[groups[i].start].media == before.media
            && next[k].speed == SpeedStep(ports[k].speed, u, i, lane)
            && next[k].attrSpeed == SpeedStep(ports[k].attrSpeed, u, i, lane)
  {
    var g := groups[i];
    var k, start := g.start + lane, groups[u.group].start;
    assert Tracked(ports, g) && Tracked(ports, groups[u.group]);
    assert Contains(g, k) && Contains(g, g.start);
    if u.group == i && u.cfg.newMode != ModeMax {
      ShowsAfterUpdate(ports, g, u.cfg, lane, before, p, mode);
      UpdateWrites(ports, g.start, u.cfg, k);
    } else {
      if u.group != i {
        NotInBoth(groups, i, u.group, k);
        NotInBoth(groups, i, u.group, g.start);
      }
      UpdateLeavesAlone(ports, start, u.cfg, k);
      UpdateLeavesAlone(ports, start, u.cfg, g.start);
    }
  }

  lemma {:induction false} RunShows(ports: seq<PortInfo>, groups: seq<Group>, us: seq<Update>, end: seq<PortInfo>,
                                    i: nat, lane: nat, before: PortInfo, p: PortInfo, mode: Option<BreakoutMode>)
    requires Inv(ports, groups) && Runs(ports, groups, us, end) && i < |groups| && lane < groups[i].size
    requires InTable(ports, groups[i])
    requires Shows(ports[groups[i].start + lane], before, p, lane, mode) && ports[groups[i].start].media == before.media
    requires lane == 0 ==> before == p
    ensures var k := groups[i].start + lane;
            && k < |end|
            && Shows(end[k], before, p, lane, LastMode(mode, us, i))
            && end[k].speed == SpeedAfter(ports[k].speed, us, i, lane)
            && end[k].attrSpeed == SpeedAfter(ports[k].attrSpeed, us, i, lane)
    decreases |us|
  {
    if us == [] {
    } else {
      var next := Updated(ports, groups[us[0].group].start, us[0].cfg);
      StepKeepsInv(ports, groups, us[0]);
      StepShows(ports, groups, us[0], i, lane, before, p, mode);
      RunShows(next, groups, us[1..], end, i, lane, before, p, ModeStep(mode, us[0], i));
    }
  }

  /** What a whole run of updates leaves in each record of each group. Its speeds are those of the
      last update in whose mode it was in use; its validity, its media and the lane bitmap of the
      control port are those of the last mode of the group; all are as at the start where there was
      no such update. */
  lemma RunWrites(ports: seq<PortInfo>, groups: seq<Group>, us: seq<Update>, end: seq<PortInfo>, i: nat, lane: nat)
    requires Inv(ports, groups) && Runs(ports, groups, us, end) && i < |groups| && lane < groups[i].size
    ensures InTable(ports, groups[i]) && |end| == |ports|
    ensures var k := groups[i].start + lane;
            && Shows(end[k], ports[groups[i].start], ports[k], lane, LastMode(None, us, i))
            && end[k].speed == SpeedAfter(ports[k].speed, us, i, lane)
            && end[k].attrSpeed == SpeedAfter(ports[k].attrSpeed, us, i, lane)
  {
    assert Tracked(ports, groups[i]);
    RunKeepsInv(ports, groups, us, end);
    RunShows(ports, groups, us, end, i, lane, ports[groups[i].start], ports[groups[i].start + lane], None);
  }

  /** The lanes of a valid port are consecutive records of its group, and the next valid port, if
      any, comes after them. */
  lemma LaneRange(ports: seq<PortInfo>, g: Group, k: nat)
    requires Tracked(ports, g) && Contains(g, k) && ports[k].portValid
    ensures k + PortLaneCount(ports[k]) <= g.start + g.size
    ensures LaneList(ports, k) == Some(Phys(ports, k, PortLaneCount(ports[k])))
    ensures forall j: nat | Contains(g, j) && j > k && ports[j].portValid :: j >= k + PortLaneCount(ports[k])
  {
    var m := CurrentMode(ports[g.start]);
    assert PortInMode(ports[k], k - g.start, m);
    PortLanes(ports, g, m, k);
    forall j: nat | Contains(g, j) && j > k && ports[j].portValid ensures j >= k + PortLaneCount(ports[k]) {
      assert PortInMode(ports[j], j - g.start, m);
    }
  }

  lemma RangesApart(groups: seq<Group>, i: nat, j: nat, k: nat, c: nat, l: nat, d: nat)
    requires Disjoint(groups) && i < |groups| && j < |groups| && i != j
    requires Contains(groups[i], k) && k + c <= groups[i].start + groups[i].size
    requires Contains(groups[j], l) && l + d <= groups[j].start + groups[j].size
    ensures k + c <= l || l + d <= k
  {
    NotInBoth(groups, i, j, if k < l then l else k);
  }

  /** No two valid ports of any groups ever drive the same lane, if physical ids are distinct. */
  lemma NoSharedLane(ports: seq<PortInfo>, groups: seq<Group>, i: nat, j: nat, k: nat, l: nat)
    requires Inv(ports, groups) && i < |groups| && j < |groups|
    requires Contains(groups[i], k) && Contains(groups[j], l) && k != l
    requires k < |ports| && l < |ports| && ports[k].portValid && ports[l].portValid
    requires forall a, b | 0 <= a < b < |ports| :: ports[a].phyPortId != ports[b].phyPortId
    ensures LaneList(ports, k).Some? && LaneList(ports, l).Some?
    ensures forall lane | lane in LaneList(ports, k).value :: lane !in LaneList(ports, l).value
  {
    LaneRange(ports, groups[i], k);
    LaneRange(ports, groups[j], l);
    var c, d := PortLaneCount(ports[k]), PortLaneCount(ports[l]);
    assert k + c <= l || l + d <= k by {
      if i != j {
        RangesApart(groups, i, j, k, c, l, d);
      }
    }
    forall a, b | 0 <= a < c && 0 <= b < d ensures Phys(ports, k, c)[a] != Phys(ports, l, d)[b] {
      assert ports[k + a].phyPortId != ports[l + b].phyPortId;
    }
  }

  /** Enabled capabilities stay within the supported ones in every run of updates whatever, legal
      or not. */
  ghost predicate AnyRun(ports: seq<PortInfo>, us: seq<(nat, BreakoutConfig)>, end: seq<PortInfo>)
    decreases |us|
  {
    if us == [] then ports == end
    else us[0].0 < |ports| && AnyRun(Updated(ports, us[0].0, us[0].1), us[1..], end)
  }

  lemma {:induction false} AnyRunKeepsSupported(ports: seq<PortInfo>, us: seq<(nat, BreakoutConfig)>, end: seq<PortInfo>)
    requires AnyRun(ports, us, end)
    requires forall k | 0 <= k < |ports| :: ports[k].enabledCapb <= ports[k].supportedCapb
    ensures forall k | 0 <= k < |end| :: end[k].enabledCapb <= end[k].supportedCapb
    decreases |us|
  {
    if us == [] {
    } else {
      UpdateKeepsSupported(ports, us[0].0, us[0].1);
      AnyRunKeepsSupported(Updated(ports, us[0].0, us[0].1), us[1..], end);
    }
  }

  // ---------------------------------------------------------------- lane budget and round trip

  /** The number of one bits. */
  function Ones(x: nat): nat {
    if x == 0 then 0 else x % 2 + Ones(x / 2)
  }

  function ValidCount(ports: seq<PortInfo>, k: nat, n: nat): nat
    requires k + n <= |ports|
  {
    if n == 0 then 0 else ValidCount(ports, k, n - 1) + if ports[k + n - 1].portValid then 1 else 0
  }

  lemma BitmapOnes()
    ensures Ones(ONE_LANE_BITMAP) == 1 && Ones(TWO_LANE_BITMAP) == 2 && Ones(FOUR_LANE_BITMAP) == 4
  {
    assert Ones(1) == 1;
    assert Ones(2) == 1 && Ones(3) == 2;
    assert Ones(5) == 2 && Ones(7) == 3;
    assert Ones(15) == 4;
  }

  lemma ValidAfter(ports: seq<PortInfo>, g: Group, cfg: BreakoutConfig, lane: nat)
    requires InTable(ports, g) && ports[g.start].maxLanes == g.size && 0 < lane < g.size && cfg.newMode != ModeMax
    ensures Updated(ports, g.start, cfg)[g.start + lane].portValid == ActiveLane(cfg.newMode, lane)
  {
  }

  function One(b: bool): nat {
    if b then 1 else 0
  }

  lemma CountFour(ports: seq<PortInfo>, k: nat)
    requires k + 4 <= |ports|
    ensures ValidCount(ports, k, 4)
         == One(ports[k].portValid) + One(ports[k + 1].portValid) + One(ports[k + 2].portValid) + One(ports[k + 3].portValid)
  {
    assert ValidCount(ports, k, 1) == One(ports[k].portValid);
    assert ValidCount(ports, k, 2) == ValidCount(ports, k, 1) + One(ports[k + 1].portValid);
    assert ValidCount(ports, k, 3) == ValidCount(ports, k, 2) + One(ports[k + 2].portValid);
  }

  /** In a four-lane group with a valid control port, an update to a proper mode makes as many
      ports valid as the mode has ports, gives the control port a bitmap of as many lanes as the
      mode gives a port, and spends four lanes in all. */
  lemma LaneBudget(ports: seq<PortInfo>, g: Group, cfg: BreakoutConfig)
    requires InTable(ports, g) && g.size == 4 && ports[g.start].maxLanes == 4
    requires ports[g.start].portValid && cfg.newMode != ModeMax
    ensures var after := Updated(ports, g.start, cfg);
            && ValidCount(after, g.start, 4) == PortCount(cfg.newMode)
            && Ones(after[g.start].laneBmap) == LaneCount(cfg.newMode)
            && PortCount(cfg.newMode) * LaneCount(cfg.newMode) == 4
            && ModeFromPortCount(ValidCount(after, g.start, 4)) == cfg.newMode
  {
    var after := Updated(ports, g.start, cfg);
    BitmapOnes();
    CountFour(after, g.start);
    ValidAfter(ports, g, cfg, 1);
    ValidAfter(ports, g, cfg, 2);
    ValidAfter(ports, g, cfg, 3);
  }

  lemma SwitchBack(p: PortInfo, q: PortInfo, m: BreakoutMode, speed1: nat, speed2: nat)
    requires p.enabledCapb <= p.supportedCapb && m != ModeMax
    requires CAP_BREAKOUT !in p.enabledCapb && CAP_BREAKOUT in p.supportedCapb
    requires p.enabledCapb * {CAP_1X, CAP_2X, CAP_4X} == {CAP_1X} && CapbSupported(p, CapbFromMode(m))
    requires q.supportedCapb == p.supportedCapb
    requires q.enabledCapb == Switched(p, BreakoutConfig(OneLane, m, speed1)).enabledCapb
    ensures Switched(q, BreakoutConfig(m, OneLane, speed2)).enabledCapb == p.enabledCapb
  {
    assert CAP_1X in p.enabledCapb * {CAP_1X, CAP_2X, CAP_4X};
    assert forall b | b in {CAP_2X, CAP_4X} :: b in p.enabledCapb ==> b in p.enabledCapb * {CAP_1X, CAP_2X, CAP_4X};
  }

  /** Breaking a group out of a clean one-lane mode and back in restores the enabled capabilities
      and the validity of every record. */
  lemma BreakoutAndBack(ports: seq<PortInfo>, g: Group, m: BreakoutMode, speed1: nat, speed2: nat)
    requires GroupInMode(ports, g, OneLane) && GroupSupports(ports, g, m) && m != ModeMax
    ensures var out := Updated(ports, g.start, BreakoutConfig(OneLane, m, speed1));
            var back := Updated(out, g.start, BreakoutConfig(m, OneLane, speed2));
            forall k | 0 <= k < |ports| ::
              back[k].enabledCapb == ports[k].enabledCapb && back[k].portValid == ports[k].portValid
  {
    var out := Updated(ports, g.start, BreakoutConfig(OneLane, m, speed1));
    var back := Updated(out, g.start, BreakoutConfig(m, OneLane, speed2));
    forall k | 0 <= k < |ports|
      ensures back[k].enabledCapb == ports[k].enabledCapb && back[k].portValid == ports[k].portValid
    {
      if Contains(g, k) {
        assert PortInMode(ports[k], k - g.start, OneLane);
        SwitchBack(ports[k], out[k], m, speed1, speed2);
      }
    }
  }

  // ---------------------------------------------------------------- creating one port of a group

  /** Creating a port right after a breakout update leaves that port the only valid one of its
      group exactly when the port carries lanes in the new mode; otherwise none is valid. */
  lemma CreateValidatesOnePort(ports: seq<PortInfo>, g: Group, cfg: BreakoutConfig, created: nat)
    requires InTable(ports, g) && ports[g.start].maxLanes == g.size && Contains(g, created)
    requires cfg.newMode == FourLane || cfg.newMode == TwoLane
    requires forall i, j | 0 <= i < j < |ports| :: ports[i].saiPortId != ports[j].saiPortId
    ensures var after := Updated(ports, g.start, cfg);
            var id := ports[created].saiPortId;
            forall k | Contains(g, k) ::
              ValidityAfter(after, g.start, id, cfg.newMode, k).portValid
              <==> k == created && ActiveLane(cfg.newMode, created - g.start)
  {
  }

  /** Creating the second port of four after a breakout into the two-lane mode leaves no port of the
      group valid. */
  lemma CreateValidatesNone(speed: nat)
    ensures var ports := ExampleGroup(4, OneLane);
            var after := Updated(ports, 0, BreakoutConfig(OneLane, TwoLane, speed));
            forall k | 0 <= k < 4 :: !ValidityAfter(after, 0, ports[1].saiPortId, TwoLane, k).portValid
  {
    var cfg := BreakoutConfig(OneLane, TwoLane, speed);
    var ports, g := ExampleGroup(4, OneLane), Group(0, 4);
    CreateValidatesOnePort(ports, g, cfg, 1);
    forall k | 0 <= k < 4
      ensures !ValidityAfter(Updated(ports, 0, cfg), 0, ports[1].saiPortId, TwoLane, k).portValid
    {
      assert Contains(g, k);
    }
  }

  /** What a create leaves alone: every field but the validity; the validity of every record outside
      the group and of those not in use in the mode; and in the other modes the whole table. */
  lemma CreateLeavesAlone(ports: seq<PortInfo>, control: nat, id: Oid, mode: BreakoutMode, k: nat)
    requires control < |ports| && k < |ports|
    ensures var p, a := ports[k], ValidityAfter(ports, control, id, mode, k);
            && a == p.(portValid := a.portValid)
            && (a != p ==> mode in {TwoLane, FourLane} && control <= k < control + ports[control].maxLanes
                           && InUse(mode, k - control) && (a.portValid <==> p.saiPortId == id))
  {
  }

  // ---------------------------------------------------------------- the lane bitmap

  /** The bits of the control port's lane bitmap after an update: every lane whose position is a
      multiple of the mode's port count. The ports in use are those whose position is a multiple of
      its lane count. */
  lemma BitmapLanes(ports: seq<PortInfo>, i: nat, cfg: BreakoutConfig, lane: nat)
    requires i < |ports| && cfg.newMode != ModeMax
    ensures Quotient(Updated(ports, i, cfg)[i].laneBmap, Pow2(lane)) % 2 == 1
       <==> lane < 4 && lane % PortCount(cfg.newMode) == 0
    ensures lane < 4 ==> (InUse(cfg.newMode, lane) <==> lane % LaneCount(cfg.newMode) == 0)
  {
    UpdateWrites(ports, i, cfg, i);
    var bitmap := Updated(ports, i, cfg)[i].laneBmap;
    if lane >= 4 {
      Pow2Monotone(4, lane);
      assert Pow2(4) == 16;
      DivModUnique(bitmap, 0, bitmap, Pow2(lane));
    } else {
      assert Pow2(0) == 1 && Pow2(1) == 2 && Pow2(2) == 4 && Pow2(3) == 8;
    }
  }
}
