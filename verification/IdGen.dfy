/** The object-id allocator: a wrap-around search under a bit mask. */
module IdGen {
  import opened SaiTypes
  import opened Bits
  import opened Collections

  /** The value of an allocator record; `mask` never changes. */
  datatype Gen = Gen(curId: nat, wrapped: bool, mask: nat) {
    predicate Valid() {
      curId < TWO_TO_THE_64 && mask < TWO_TO_THE_64
    }
  }

  /** The successor of an id, in 64-bit arithmetic, under the mask. */
  function Next(x: nat, mask: nat): nat {
    And((x + 1) % TWO_TO_THE_64, mask)
  }

  /** Two to the number of trailing one bits of the mask. */
  function Period(mask: nat): (p: nat)
    ensures 1 <= p <= mask + 1
  {
    if mask % 2 == 0 then 1 else 2 * Period(mask / 2)
  }

  /** The id reached after `j` successors of `s`. */
  function IdAfter(s: nat, mask: nat, j: nat): nat {
    if j == 0 then s else Next(IdAfter(s, mask, j - 1), mask)
  }

  /** The bits of `s` above the mask's trailing ones stay put, the trailing bits count modulo
      the period. */
  function Rotated(s: nat, mask: nat, j: nat): nat {
    s - Mod(s, Period(mask)) + Mod(Mod(s, Period(mask)) + j, Period(mask))
  }

  /** The ids that have no bit outside the mask. */
  predicate Fits(x: nat, mask: nat) {
    x < TWO_TO_THE_64 && mask < TWO_TO_THE_64 && And(x, mask) == x
  }

  /** The first of the candidates `j`, `j + 1`, ... that is free, or the period if all are taken. */
  function FirstFree(s: nat, mask: nat, j: nat, inUse: set<nat>): (k: nat)
    requires j <= Period(mask)
    ensures j <= k <= Period(mask)
    ensures forall i :: j <= i < k ==> IdAfter(s, mask, i) in inUse
    ensures k < Period(mask) ==> IdAfter(s, mask, k) !in inUse
    decreases Period(mask) - j
  {
    if j == Period(mask) || IdAfter(s, mask, j) !in inUse then j
    else FirstFree(s, mask, j + 1, inUse)
  }

  /** What one allocation does to the allocator record. */
  function Allocate(g: Gen, inUse: set<nat>): (Gen, Status) {
    var s := Next(g.curId, g.mask);
    var wrapped := g.wrapped || s == 0;
    var k := FirstFree(s, g.mask, 0, inUse);
    if !wrapped then (Gen(s, false, g.mask), Success)
    else if k < Period(g.mask) then (Gen(IdAfter(s, g.mask, k), true, g.mask), Success)
    else (Gen(s, true, g.mask), Failure)
  }

  // ---------------------------------------------------------------- the successor cycle

  /** On ids that fit the mask, masking the increment counts modulo the period. */
  lemma {:induction false} MaskedIncrement(x: nat, m: nat)
    requires And(x, m) == x
    ensures And(x + 1, m) == if x % Period(m) == Period(m) - 1 then x - (Period(m) - 1) else x + 1
  {
    AndUnfold(x, m);
    AndUnfold(x + 1, m);
    if m % 2 == 0 {
      assert Period(m) == 1;
    } else {
      assert And(x / 2, m / 2) == x / 2;
      HalveMod(x, Period(m / 2));
      if x % 2 == 1 {
        MaskedIncrement(x / 2, m / 2);
        assert (x + 1) / 2 == x / 2 + 1;
      } else {
        assert (x + 1) / 2 == x / 2;
      }
    }
  }

  /** The 64-bit wrap-around is invisible under the mask. */
  lemma NextIsMaskedIncrement(x: nat, m: nat)
    requires x < TWO_TO_THE_64 && m < TWO_TO_THE_64
    ensures Next(x, m) == And(x + 1, m)
  {
    if x + 1 == TWO_TO_THE_64 {
      Pow2Of64();
      AndCarry(64, m);
      assert (x + 1) % TWO_TO_THE_64 == 0;
    } else {
      assert (x + 1) % TWO_TO_THE_64 == x + 1;
    }
  }

  lemma NextOnCycle(x: nat, m: nat)
    requires Fits(x, m)
    ensures Next(x, m) == if x % Period(m) == Period(m) - 1 then x - (Period(m) - 1) else x + 1
  {
    NextIsMaskedIncrement(x, m);
    MaskedIncrement(x, m);
  }

  lemma SplitMod(s: nat, r: nat, p: nat)
    requires p >= 1 && r < p
    ensures (s - Mod(s, p) + r) % p == r
  {
    assert s == (s / p) * p + s % p;
    DivModUnique(s - s % p + r, s / p, r, p);
  }

  lemma SuccMod(r: nat, p: nat)
    requires p >= 1
    ensures Mod(r + 1, p) == if Mod(r, p) == p - 1 then 0 else Mod(r, p) + 1
  {
    assert r == (r / p) * p + r % p;
    if r % p == p - 1 {
      assert r + 1 == (r / p + 1) * p;
      DivModUnique(r + 1, r / p + 1, 0, p);
    } else {
      DivModUnique(r + 1, r / p, r % p + 1, p);
    }
  }

  /** Rotating by one more position. */
  lemma RotateOnce(s: nat, m: nat, j: nat)
    ensures var x := Rotated(s, m, j);
            Rotated(s, m, j + 1) ==
              if x % Period(m) == Period(m) - 1 then x - (Period(m) - 1) else x + 1
  {
    var p := Period(m);
    var r := Mod(s, p) + j;
    SplitMod(s, Mod(r, p), p);
    SuccMod(r, p);
    assert Mod(s, p) + (j + 1) == r + 1;
  }

  lemma NextOnRotated(s: nat, m: nat, j: nat)
    requires Fits(Rotated(s, m, j), m)
    ensures Next(Rotated(s, m, j), m) == Rotated(s, m, j + 1)
  {
    NextOnCycle(Rotated(s, m, j), m);
    RotateOnce(s, m, j);
  }

  lemma NextFits(x: nat, m: nat)
    requires x < TWO_TO_THE_64 && m < TWO_TO_THE_64
    ensures Fits(Next(x, m), m)
  {
    AndIdempotent((x + 1) % TWO_TO_THE_64, m);
  }

  lemma WrapMod(x: nat, p: nat)
    requires p >= 1 && x < 2 * p
    ensures x % p == if x < p then x else x - p
  {
    DivModUnique(x, if x < p then 0 else 1, if x < p then x else x - p, p);
  }

  /** For any mask whatever, the successors of an id form a cycle of the length of the period. */
  lemma {:induction false} CycleForm(s: nat, m: nat, j: nat)
    requires Fits(s, m)
    ensures Fits(IdAfter(s, m, j), m)
    ensures IdAfter(s, m, j) == Rotated(s, m, j)
  {
    if j == 0 {
      WrapMod(s % Period(m), Period(m));
    } else {
      CycleForm(s, m, j - 1);
      NextOnRotated(s, m, j - 1);
      NextFits(Rotated(s, m, j - 1), m);
    }
  }

  lemma RotatedDistinct(s: nat, m: nat, i: nat, j: nat)
    requires i < j <= Period(m)
    ensures Rotated(s, m, i) == Rotated(s, m, j) <==> i == 0 && j == Period(m)
  {
    var p := Period(m);
    var a := s % p;
    WrapMod(a + i, p);
    WrapMod(a + j, p);
  }

  /** Within one period the walk meets no id twice, and after one period it is back. */
  lemma CycleLength(s: nat, m: nat, i: nat, j: nat)
    requires Fits(s, m) && i < j <= Period(m)
    ensures IdAfter(s, m, i) == IdAfter(s, m, j) <==> i == 0 && j == Period(m)
  {
    CycleForm(s, m, i);
    CycleForm(s, m, j);
    RotatedDistinct(s, m, i, j);
  }

  // ---------------------------------------------------------------- the allocator

  class IdGen {
    var curId: nat
    var wrapped: bool
    const mask: nat

    constructor (mask: nat)
      ensures State() == Gen(0, false, mask)
    {
      this.curId, this.wrapped, this.mask := 0, false, mask;
    }

    function State(): Gen
      reads this
    {
      Gen(curId, wrapped, mask)
    }

    /** `inUse` is what the record's callback answers during the call, `probes` how often it is
        asked. The search terminates for every mask, after at most as many probes as the period. */
    method GetNextFreeId(inUse: set<nat>) returns (rc: Status, ghost probes: nat)
      requires State().Valid()
      modifies this`curId, this`wrapped
      ensures (State(), rc) == Allocate(old(State()), inUse)
      ensures State().Valid()
      ensures probes <= Period(mask) && (rc == Failure ==> probes == Period(mask))
    {
      probes := 0;
      NextFits(curId, mask);
      curId := Next(curId, mask);
      if curId == 0 {
        wrapped := true;
      }
      if wrapped {
        var first := curId;
        ghost var j := 0;
        probes := 1;
        while curId in inUse
          invariant wrapped && Fits(curId, mask) && 0 <= j < Period(mask)
          invariant curId == IdAfter(first, mask, j) && probes == j + 1
          invariant FirstFree(first, mask, 0, inUse) == FirstFree(first, mask, j, inUse)
          decreases Period(mask) - j
        {
          NextFits(curId, mask);
          curId := Next(curId, mask);
          j := j + 1;
          CycleLength(first, mask, 0, j);
          if first == curId {
            return Failure, probes;
          }
          probes := probes + 1;
        }
        assert FirstFree(first, mask, j, inUse) == j;
      }
      return Success, probes;
    }
  }

  // ---------------------------------------------------------------- exactness of one allocation

  /** The blocks of `p` consecutive ids that start at a multiple of `p`. */
  predicate SameBlock(s: nat, id: nat, p: nat)
    requires p >= 1
  {
    s / p == id / p
  }

  /** How many successors lead from `s` to `id`, within their block of ids. */
  function Distance(s: nat, id: nat, p: nat): (d: nat)
    requires p >= 1
    ensures d < p
  {
    if id % p >= s % p then id % p - s % p else id % p - s % p + p
  }

  lemma RotateInBlock(s: nat, j: nat, p: nat, x: nat)
    requires p >= 1 && j < p && x == s - Mod(s, p) + Mod(Mod(s, p) + j, p)
    ensures SameBlock(s, x, p) && Distance(s, x, p) == j
  {
    WrapMod(s % p + j, p);
    assert s == (s / p) * p + s % p;
    DivModUnique(x, s / p, Mod(Mod(s, p) + j, p), p);
  }

  lemma BlockIsRotation(s: nat, id: nat, p: nat)
    requires p >= 1 && SameBlock(s, id, p)
    ensures s - Mod(s, p) + Mod(Mod(s, p) + Distance(s, id, p), p) == id
  {
    WrapMod(s % p + Distance(s, id, p), p);
    assert s == (s / p) * p + s % p;
    assert id == (id / p) * p + id % p;
  }

  /** The cycle through `s` is the block of `Period(m)` consecutive ids that contains `s`. */
  lemma BlockIsCycle(s: nat, m: nat, id: nat)
    requires Fits(s, m) && SameBlock(s, id, Period(m))
    ensures IdAfter(s, m, Distance(s, id, Period(m))) == id
  {
    CycleForm(s, m, Distance(s, id, Period(m)));
    BlockIsRotation(s, id, Period(m));
  }

  lemma CycleInBlock(s: nat, m: nat, j: nat)
    requires Fits(s, m) && j < Period(m)
    ensures SameBlock(s, IdAfter(s, m, j), Period(m))
    ensures Distance(s, IdAfter(s, m, j), Period(m)) == j
  {
    CycleForm(s, m, j);
    RotateInBlock(s, j, Period(m), Rotated(s, m, j));
  }

  /** The first `k` candidates after `s` are in use exactly when all ids of the block that are
      nearer than `k` are. */
  lemma NearerInUse(s: nat, m: nat, k: nat, inUse: set<nat>)
    requires Fits(s, m) && k <= Period(m)
    requires forall i :: 0 <= i < k ==> IdAfter(s, m, i) in inUse
    ensures forall id: nat | SameBlock(s, id, Period(m)) && Distance(s, id, Period(m)) < k :: id in inUse
  {
    forall id: nat | SameBlock(s, id, Period(m)) && Distance(s, id, Period(m)) < k
      ensures id in inUse
    {
      BlockIsCycle(s, m, id);
    }
  }

  /** Once the counter has wrapped, and whatever the mask, an allocation fails exactly when its
      whole block of ids is in use, and otherwise hands out the cyclically first free id. */
  lemma AllocateExact(g: Gen, inUse: set<nat>)
    requires g.Valid() && (g.wrapped || Next(g.curId, g.mask) == 0)
    ensures var s, p, r := Next(g.curId, g.mask), Period(g.mask), Allocate(g, inUse);
            && (r.1 == Failure <==> forall id: nat | SameBlock(s, id, p) :: id in inUse)
            && (r.1 == Failure || r.1 == Success)
            && (r.1 == Success ==>
                  && SameBlock(s, r.0.curId, p)
                  && r.0.curId !in inUse
                  && forall id: nat | SameBlock(s, id, p) && Distance(s, id, p) < Distance(s, r.0.curId, p)
                       :: id in inUse)
  {
    var s, p := Next(g.curId, g.mask), Period(g.mask);
    NextFits(g.curId, g.mask);
    var k := FirstFree(s, g.mask, 0, inUse);
    NearerInUse(s, g.mask, k, inUse);
    if k < p {
      CycleInBlock(s, g.mask, k);
    }
  }

  lemma {:induction false} PeriodOfOnes(n: nat)
    ensures Period(Pow2(n) - 1) == Pow2(n)
  {
    if n == 0 {
    } else {
      PeriodOfOnes(n - 1);
      assert (Pow2(n) - 1) / 2 == Pow2(n - 1) - 1;
    }
  }

  /** The successor of an id that fits the mask lies in the same block. */
  lemma StartInBlock(x: nat, m: nat)
    requires Fits(x, m)
    ensures forall id: nat :: SameBlock(x, id, Period(m)) <==> SameBlock(Next(x, m), id, Period(m))
  {
    assert IdAfter(x, m, 0) == x && IdAfter(x, m, 1) == Next(x, m);
    if Period(m) > 1 {
      CycleInBlock(x, m, 1);
    } else {
      CycleLength(x, m, 0, 1);
    }
  }

  /** A failed allocation leaves the counter, wrapped, at the successor of where it stood. */
  lemma FailureLeaves(g: Gen, inUse: set<nat>)
    requires g.Valid() && Allocate(g, inUse).1 == Failure
    ensures Allocate(g, inUse).0 == Gen(Next(g.curId, g.mask), true, g.mask)
  {
  }

  /** After a failed allocation and any frees, the next allocation hands out the first id of the block
      that is free now, counted from two successors after the old counter. */
  lemma AllocateAfterFailure(g: Gen, inUse: set<nat>, later: set<nat>)
    requires g.Valid() && Allocate(g, inUse).1 == Failure
    ensures var again := Allocate(Allocate(g, inUse).0, later);
            var start, p := Next(Next(g.curId, g.mask), g.mask), Period(g.mask);
            && (again.1 == Failure <==> forall id: nat | SameBlock(start, id, p) :: id in later)
            && (again.1 == Success ==>
                  && SameBlock(start, again.0.curId, p) && again.0.curId !in later
                  && forall id: nat | SameBlock(start, id, p) && Distance(start, id, p) < Distance(start, again.0.curId, p)
                       :: id in later)
  {
    FailureLeaves(g, inUse);
    NextFits(g.curId, g.mask);
    AllocateExact(Allocate(g, inUse).0, later);
  }

  /** If a single id of the block was freed since, the next allocation hands out that one, wherever it
      lies. */
  lemma FreedIdComesBack(g: Gen, inUse: set<nat>, id: nat)
    requires g.Valid() && Allocate(g, inUse).1 == Failure
    requires SameBlock(Next(g.curId, g.mask), id, Period(g.mask))
    ensures Allocate(Allocate(g, inUse).0, inUse - {id}) == (Gen(id, true, g.mask), Success)
  {
    var next, p := Next(g.curId, g.mask), Period(g.mask);
    FailureLeaves(g, inUse);
    NextFits(g.curId, g.mask);
    AllocateExact(g, inUse);
    AllocateExact(Gen(next, true, g.mask), inUse - {id});
    StartInBlock(next, g.mask);
  }

  lemma FullMask(curId: nat, mask: nat, n: nat)
    requires curId < TWO_TO_THE_64 && mask < TWO_TO_THE_64 && mask == Pow2(n) - 1
    ensures Period(mask) == mask + 1
    ensures Next(curId, mask) == (curId + 1) % (mask + 1)
  {
    PeriodOfOnes(n);
    NextIsMaskedIncrement(curId, mask);
    AndLowMask(curId + 1, n);
  }

  lemma LowBlock(x: nat, id: nat, p: nat)
    requires x < p
    ensures SameBlock(x, id, p) <==> id < p
  {
    DivModUnique(x, 0, x, p);
    if id < p {
      DivModUnique(id, 0, id, p);
    } else {
      assert id == (id / p) * p + id % p;
    }
  }

  /** For a mask of `n` one bits: once the counter has wrapped, an allocation fails exactly when
      all the ids from 0 to the mask are in use, and otherwise hands out the first free one that
      follows the last id handed out, counting round from the mask to 0. */
  lemma AllocateFullMask(g: Gen, inUse: set<nat>, n: nat)
    requires g.Valid() && g.mask == Pow2(n) - 1 && (g.wrapped || (g.curId + 1) % (g.mask + 1) == 0)
    ensures var next, r := (g.curId + 1) % (g.mask + 1), Allocate(g, inUse);
            && (r.1 == Failure || r.1 == Success)
            && (r.1 == Failure <==> forall id: nat | id <= g.mask :: id in inUse)
            && (r.1 == Success ==>
                  && r.0.curId <= g.mask && r.0.curId !in inUse
                  && forall id: nat | id <= g.mask
                       && Distance(next, id, g.mask + 1) < Distance(next, r.0.curId, g.mask + 1) :: id in inUse)
  {
    FullMask(g.curId, g.mask, n);
    AllocateExact(g, inUse);
    var next, p := Next(g.curId, g.mask), Period(g.mask);
    forall id: nat ensures SameBlock(next, id, p) <==> id < p {
      LowBlock(next, id, p);
    }
  }

  // ---------------------------------------------------------------- whole runs

  /** The allocator together with the ids handed out and not yet freed. */
  datatype Sys = Sys(gen: Gen, live: set<nat>)

  datatype Op = Alloc | Free(id: nat)

  function Step(s: Sys, op: Op): Sys {
    match op
    case Alloc =>
      var (g, rc) := Allocate(s.gen, s.live);
      Sys(g, if rc == Success then s.live + {g.curId} else s.live)
    case Free(id) => s.(live := s.live - {id})
  }

  function Run(s: Sys, ops: seq<Op>): Sys {
    if ops == [] then s else Step(Run(s, ops[..|ops| - 1]), ops[|ops| - 1])
  }

  /** The invariant of every run: until the counter wraps, the live ids lie behind it. */
  predicate Inv(s: Sys) {
    && s.gen.Valid()
    && s.gen.curId < Period(s.gen.mask)
    && (forall id | id in s.live :: id < Period(s.gen.mask))
    && (!s.gen.wrapped ==> forall id | id in s.live :: 1 <= id <= s.gen.curId)
  }

  /** Below the period, ids fit the mask and lie in the block of 0. */
  lemma LowIds(x: nat, m: nat)
    requires x < Period(m) && m < TWO_TO_THE_64
    ensures Fits(x, m) && SameBlock(0, x, Period(m)) && SameBlock(x, 0, Period(m))
    ensures Next(x, m) == if x == Period(m) - 1 then 0 else x + 1
  {
    CycleForm(0, m, x);
    DivModUnique(x, 0, x, Period(m));
    DivModUnique(0, 0, 0, Period(m));
    NextOnCycle(x, m);
  }

  /** What an allocation does to a state of a run: it fails only when a full period of ids is
      live, and otherwise it produces an id that is not live. */
  lemma AllocateSafe(s: Sys)
    requires Inv(s)
    ensures var (g, rc) := Allocate(s.gen, s.live);
            && (rc == Failure <==> forall id: nat | id < Period(s.gen.mask) :: id in s.live)
            && (rc != Failure ==> rc == Success && g.curId !in s.live)
            && g.curId < Period(s.gen.mask)
            && Inv(Step(s, Alloc))
  {
    var m := s.gen.mask;
    var first := Next(s.gen.curId, m);
    LowIds(s.gen.curId, m);
    LowIds(first, m);
    if s.gen.wrapped || first == 0 {
      AllocateExact(s.gen, s.live);
      forall id: nat
        ensures SameBlock(first, id, Period(m)) <==> id < Period(m)
      {
        LowBlock(first, id, Period(m));
      }
    } else {
      assert first !in s.live;
    }
  }

  lemma AllIdsLive(s: Sys)
    requires Inv(s)
    ensures |s.live| == Period(s.gen.mask) <==> forall id: nat | id < Period(s.gen.mask) :: id in s.live
  {
    SubsetSize(s.live, Below(Period(s.gen.mask)));
  }

  lemma {:induction false} RunKeepsInv(mask: nat, ops: seq<Op>)
    requires mask < TWO_TO_THE_64
    ensures Inv(Run(Sys(Gen(0, false, mask), {}), ops))
    ensures Run(Sys(Gen(0, false, mask), {}), ops).gen.mask == mask
  {
    if ops == [] {
    } else {
      RunKeepsInv(mask, ops[..|ops| - 1]);
      AllocateSafe(Run(Sys(Gen(0, false, mask), {}), ops[..|ops| - 1]));
    }
  }

  /** In every run of allocations and frees of a fresh allocator, under any mask, the next
      allocation never hands out a live id, before or after the counter wraps, and it fails
      exactly when all the ids of the period are live. */
  lemma NeverReusesLiveId(mask: nat, ops: seq<Op>)
    requires mask < TWO_TO_THE_64
    ensures var s := Run(Sys(Gen(0, false, mask), {}), ops);
            var (g, rc) := Allocate(s.gen, s.live);
            && (rc == Failure || rc == Success)
            && (rc == Success ==> g.curId !in s.live && g.curId < Period(mask))
            && (rc == Failure <==> |s.live| == Period(mask))
  {
    RunKeepsInv(mask, ops);
    var s := Run(Sys(Gen(0, false, mask), {}), ops);
    AllocateSafe(s);
    AllIdsLive(s);
  }

  // ---------------------------------------------------------------- runs from any start

  /** The next allocation hands out no live id. */
  predicate NextIsSafe(s: Sys) {
    var (g, rc) := Allocate(s.gen, s.live);
    rc == Success ==> g.curId !in s.live
  }

  /** No run from here ever hands out a live id. */
  ghost predicate Safe(s: Sys) {
    forall ops :: NextIsSafe(Run(s, ops))
  }

  /** What a caller has to see to: the counter has wrapped, or wraps at once, or its way to the
      end of the period is clear of live ids. */
  predicate ClearAhead(s: Sys) {
    var next, p := Next(s.gen.curId, s.gen.mask), Period(s.gen.mask);
    s.gen.wrapped || next == 0 || (next < p && forall id | id in s.live :: !(next <= id < p))
  }

  lemma AllocatedFits(g: Gen, inUse: set<nat>)
    requires g.Valid()
    ensures Allocate(g, inUse).0.Valid()
  {
    NextFits(g.curId, g.mask);
    var k := FirstFree(Next(g.curId, g.mask), g.mask, 0, inUse);
    CycleForm(Next(g.curId, g.mask), g.mask, k);
  }

  lemma ClearStep(s: Sys, op: Op)
    requires s.gen.Valid() && ClearAhead(s)
    ensures NextIsSafe(s)
    ensures Step(s, op).gen.Valid() && ClearAhead(Step(s, op))
  {
    var m := s.gen.mask;
    var next := Next(s.gen.curId, m);
    NextFits(s.gen.curId, m);
    if s.gen.wrapped || next == 0 {
      AllocateExact(s.gen, s.live);
      AllocatedFits(s.gen, s.live);
    } else {
      LowIds(next, m);
    }
  }

  lemma {:induction false} ClearRun(s: Sys, ops: seq<Op>)
    requires s.gen.Valid() && ClearAhead(s)
    ensures Run(s, ops).gen.Valid() && ClearAhead(Run(s, ops))
  {
    if ops == [] {
    } else {
      ClearRun(s, ops[..|ops| - 1]);
      ClearStep(Run(s, ops[..|ops| - 1]), ops[|ops| - 1]);
    }
  }

  function Allocs(n: nat): (ops: seq<Op>)
    ensures |ops| == n
  {
    seq(n, i => Alloc)
  }

  /** The first `n` successors of an id, from the id itself on, are not 0. */
  ghost predicate MissesZero(x: nat, m: nat, n: nat) {
    forall i: nat | i < n :: IdAfter(x, m, i) != 0
  }

  lemma RunAllocs(s: Sys, n: nat)
    requires n > 0
    ensures Run(s, Allocs(n)) == Step(Run(s, Allocs(n - 1)), Alloc)
  {
    assert Allocs(n)[..n - 1] == Allocs(n - 1);
  }

  /** The id a blind counter stands at after `n` allocations. */
  function Reached(g: Gen, n: nat): nat {
    if n == 0 then g.curId else IdAfter(Next(g.curId, g.mask), g.mask, n - 1)
  }

  lemma ReachedNext(g: Gen, n: nat)
    ensures Next(Reached(g, n), g.mask) == IdAfter(Next(g.curId, g.mask), g.mask, n)
  {
  }

  lemma BlindStep(s: Sys)
    requires !s.gen.wrapped && Next(s.gen.curId, s.gen.mask) != 0
    ensures var next := Next(s.gen.curId, s.gen.mask);
            Step(s, Alloc) == Sys(Gen(next, false, s.gen.mask), s.live + {next})
  {
  }

  /** As long as it does not come to 0, an unwrapped counter hands out one successor after the
      other, live or not. */
  lemma {:induction false} BlindRun(s: Sys, n: nat)
    requires !s.gen.wrapped && MissesZero(Next(s.gen.curId, s.gen.mask), s.gen.mask, n)
    ensures Run(s, Allocs(n)).gen == Gen(Reached(s.gen, n), false, s.gen.mask)
    ensures s.live <= Run(s, Allocs(n)).live
    ensures n > 0 ==> Next(s.gen.curId, s.gen.mask) in Run(s, Allocs(n)).live
  {
    if n == 0 {
    } else {
      BlindRun(s, n - 1);
      RunAllocs(s, n);
      ReachedNext(s.gen, n - 1);
      BlindStep(Run(s, Allocs(n - 1)));
    }
  }

  /** Where a run of `n` allocations comes to hand out a live id. */
  lemma BlindReuse(s: Sys, n: nat)
    requires !s.gen.wrapped && MissesZero(Next(s.gen.curId, s.gen.mask), s.gen.mask, n + 1)
    requires IdAfter(Next(s.gen.curId, s.gen.mask), s.gen.mask, n) in s.live
             || (n > 0 && IdAfter(Next(s.gen.curId, s.gen.mask), s.gen.mask, n) == Next(s.gen.curId, s.gen.mask))
    ensures !NextIsSafe(Run(s, Allocs(n)))
  {
    BlindRun(s, n);
    ReachedNext(s.gen, n);
  }

  lemma HighBlockMissesZero(x: nat, m: nat, i: nat)
    requires Fits(x, m) && x >= Period(m)
    ensures IdAfter(x, m, i) != 0
  {
    CycleForm(x, m, i);
    var r := Mod(x, Period(m));
    assert x - r > 0;
  }

  lemma LowBlockCountsUp(x: nat, m: nat, i: nat)
    requires x + i < Period(m) && m < TWO_TO_THE_64
    ensures IdAfter(x, m, i) == x + i
  {
    LowIds(x, m);
    CycleForm(x, m, i);
    DivModUnique(x, 0, x, Period(m));
    DivModUnique(x + i, 0, x + i, Period(m));
  }

  /** A block other than that of 0 is never left and never wraps: after a period the counter hands
      out its first id again. */
  lemma HighBlockUnsafe(s: Sys)
    requires s.gen.Valid() && !s.gen.wrapped && Next(s.gen.curId, s.gen.mask) >= Period(s.gen.mask)
    ensures exists n :: !NextIsSafe(Run(s, Allocs(n)))
  {
    var m := s.gen.mask;
    var first, p := Next(s.gen.curId, m), Period(m);
    NextFits(s.gen.curId, m);
    forall i: nat ensures IdAfter(first, m, i) != 0 {
      HighBlockMissesZero(first, m, i);
    }
    CycleLength(first, m, 0, p);
    BlindReuse(s, p);
  }

  /** A live id ahead of the counter is handed out once the counter gets there. */
  lemma LiveAheadUnsafe(s: Sys, id: nat)
    requires s.gen.Valid() && !s.gen.wrapped && id in s.live
    requires 0 < Next(s.gen.curId, s.gen.mask) <= id < Period(s.gen.mask)
    ensures !NextIsSafe(Run(s, Allocs(id - Next(s.gen.curId, s.gen.mask))))
  {
    var m := s.gen.mask;
    var first := Next(s.gen.curId, m);
    forall i: nat | i <= id - first ensures IdAfter(first, m, i) != 0 {
      LowBlockCountsUp(first, m, i);
    }
    LowBlockCountsUp(first, m, id - first);
    BlindReuse(s, id - first);
  }

  /** From any state of the record and any live ids, and under any mask: no run of allocations and
      frees ever hands out a live id if and only if the way ahead of the counter is clear. */
  lemma SafeExact(s: Sys)
    requires s.gen.Valid()
    ensures Safe(s) <==> ClearAhead(s)
  {
    if ClearAhead(s) {
      forall ops ensures NextIsSafe(Run(s, ops)) {
        ClearRun(s, ops);
        ClearStep(Run(s, ops), Alloc);
      }
    } else if Next(s.gen.curId, s.gen.mask) >= Period(s.gen.mask) {
      HighBlockUnsafe(s);
    } else {
      var id :| id in s.live && Next(s.gen.curId, s.gen.mask) <= id < Period(s.gen.mask);
      LiveAheadUnsafe(s, id);
    }
  }

  /** For a counter inside the first period, the way ahead is all that comes after it. */
  lemma ClearAheadOfCounter(s: Sys)
    requires s.gen.Valid() && s.gen.curId < Period(s.gen.mask)
    ensures ClearAhead(s) <==> s.gen.wrapped || forall id | id in s.live :: !(s.gen.curId < id < Period(s.gen.mask))
  {
    LowIds(s.gen.curId, s.gen.mask);
  }

  /** A start that is not safe: an id is live ahead of an unwrapped counter, and the very next
      allocation hands it out again. */
  lemma ReuseWithoutCleanStart()
    ensures Allocate(Gen(0, false, 7), {1}) == (Gen(1, false, 7), Success)
  {
    AndLowMask(1, 3);
    assert Pow2(3) == 8;
  }
}
