/** The planning simulation: the shuffled pool, the per-category plannings and
    the free-day sets, updated in place category by category, then the idle-day
    report. */
module Simulation {
  import opened Rotations
  import opened Sizing
  import opened Assignment

  /** The two contract categories, processed in this order. */
  datatype Category = Ivoirien | Location

  datatype Result<T, E> = Success(value: T) | Failure(error: E)

  /** The date range of an empty programme cannot be built; the sizing shown
      before that point is kept. */
  datatype Error = EmptyProgramme(staffing: Staffing)

  /** What the simulation reports: the sizing, both categories' plannings, the
      rotations nobody took and the idle-day count of each pilot of the last
      category processed. */
  datatype Report = Report(staffing: Staffing, ivoirien: Planning, location: Planning,
                           unassigned: seq<Rotation>, idle: seq<nat>)

  class Simulator {
    /** The planning horizon, shared read-only by all pilots. */
    const horizon: set<int>
    /** The rotations not yet assigned, in pool order. */
    var pool: seq<Rotation>
    /** The planning of each category, per pilot. */
    var plannings: map<Category, Planning>
    /** The free days of each pilot of the category processed last. */
    var freeDays: seq<set<int>>

    /** Every free-day set lies inside the horizon. */
    ghost predicate Valid()
      reads this
    {
      forall p :: 0 <= p < |freeDays| ==> freeDays[p] <= horizon
    }

    constructor (shuffled: seq<Rotation>, horizon: set<int>)
      ensures Valid()
      ensures this.horizon == horizon && pool == shuffled
      ensures plannings == map[Ivoirien := [], Location := []] && freeDays == []
    {
      this.horizon := horizon;
      pool := shuffled;
      plannings := map[Ivoirien := [], Location := []];
      freeDays := [];
    }

    /** One category pass with count pilots: each rotation of a snapshot of the
        pool goes to the first pilot holding no rotation with its start day, is
        removed from the pool and its days are taken off that pilot's free set. */
    method AssignCategory(c: Category, count: nat)
      modifies this
      ensures Valid()
      ensures pool == Pass(count, old(pool)).left
      ensures plannings == old(plannings)[c := Pass(count, old(pool)).planning]
      ensures |freeDays| == count
      ensures forall p :: 0 <= p < count ==>
                freeDays[p] == FreeDays(horizon, Pass(count, old(pool)).planning[p])
    {
      var planning := EmptyPlanning(count);
      var free := seq(count, _ => horizon);
      var snapshot := pool;
      ghost var left: seq<Rotation> := [];
      for k := 0 to |snapshot|
        invariant Pass(count, snapshot[..k]) == PassState(planning, left)
        invariant pool == left + snapshot[k..] && plannings == old(plannings)
        invariant |free| == count
        invariant forall p :: 0 <= p < count ==> free[p] == FreeDays(horizon, planning[p])
      {
        var rotation := snapshot[k];
        var p := FirstFit(planning, rotation.start);
        if p < count {
          AssignedStep(count, snapshot, k, planning, left, p);
          ghost var planning0, free0 := planning, free;
          planning := planning[p := planning[p] + [rotation]];
          free := free[p := free[p] - DateRange(rotation.start, rotation.end)];
          FreeStep(horizon, free0, planning0, free, planning, p, rotation);
          pool := RemoveFirst(pool, rotation);
        } else {
          LeftStep(count, snapshot, k, planning, left);
          left := left + [rotation];
        }
      }
      assert snapshot[..|snapshot|] == snapshot;
      plannings := plannings[c := planning];
      freeDays := free;
    }

    /** The idle-day count of each pilot of the category processed last. */
    function IdleCounts(): (counts: seq<nat>)
      reads this
      requires Valid()
      ensures |counts| == |freeDays|
      ensures forall p :: 0 <= p < |counts| ==> counts[p] == |freeDays[p]| <= |horizon|
    {
      var sets := freeDays;
      SubsetSizes(sets, horizon);
      seq(|sets|, p requires 0 <= p < |sets| => |sets[p]|)
    }
  }

  /** The loop body agrees with one Step of the pass when the rotation is taken,
      and list.remove then drops exactly the scanned rotation from the pool. */
  lemma AssignedStep(count: nat, snapshot: seq<Rotation>, k: nat, planning: Planning,
                     left: seq<Rotation>, p: nat)
    requires k < |snapshot|
    requires Pass(count, snapshot[..k]) == PassState(planning, left)
    requires p == FirstFree(planning, snapshot[k].start) && p < count
    ensures Pass(count, snapshot[..k + 1]) ==
              PassState(planning[p := planning[p] + [snapshot[k]]], left)
    ensures snapshot[k] in left + snapshot[k..]
    ensures RemoveFirst(left + snapshot[k..], snapshot[k]) == left + snapshot[k + 1..]
  {
    var rotation := snapshot[k];
    PassSnoc(count, snapshot[..k], rotation);
    assert snapshot[..k + 1] == snapshot[..k] + [rotation];
    PassSurvivors(count, snapshot[..k]);
    assert rotation !in left;
    assert (left + snapshot[k..])[|left|] == rotation;
    RemoveFirstAt(left, snapshot[k..], rotation);
    assert snapshot[k..][1..] == snapshot[k + 1..];
  }

  /** The loop body agrees with one Step of the pass when no pilot can take the rotation. */
  lemma LeftStep(count: nat, snapshot: seq<Rotation>, k: nat, planning: Planning, left: seq<Rotation>)
    requires k < |snapshot|
    requires Pass(count, snapshot[..k]) == PassState(planning, left)
    requires FirstFree(planning, snapshot[k].start) == count
    ensures Pass(count, snapshot[..k + 1]) == PassState(planning, left + [snapshot[k]])
    ensures left + snapshot[k..] == (left + [snapshot[k]]) + snapshot[k + 1..]
  {
    PassSnoc(count, snapshot[..k], snapshot[k]);
    assert Step(PassState(planning, left), snapshot[k]) == PassState(planning, left + [snapshot[k]]);
    assert snapshot[..k + 1] == snapshot[..k] + [snapshot[k]];
    assert snapshot[k..][1..] == snapshot[k + 1..];
    assert snapshot[k..] == [snapshot[k]] + snapshot[k + 1..];
  }

  /** Taking a rotation's days off the pilot's free set keeps free sets equal to
      the horizon minus the days covered. */
  lemma FreeStep(horizon: set<int>, free: seq<set<int>>, planning: Planning,
                 free': seq<set<int>>, planning': Planning, p: nat, r: Rotation)
    requires |free| == |planning| && p < |planning|
    requires forall q :: 0 <= q < |free| ==> free[q] == FreeDays(horizon, planning[q])
    requires free' == free[p := free[p] - DateRange(r.start, r.end)]
    requires planning' == planning[p := planning[p] + [r]]
    ensures forall q :: 0 <= q < |free'| ==> free'[q] == FreeDays(horizon, planning'[q])
  {
    CoveredAppend(planning[p], r);
  }

  lemma SubsetSizes(sets: seq<set<int>>, horizon: set<int>)
    requires forall p :: 0 <= p < |sets| ==> sets[p] <= horizon
    ensures forall p :: 0 <= p < |sets| ==> |sets[p]| <= |horizon|
  {
    forall p | 0 <= p < |sets| ensures |sets[p]| <= |horizon| {
      SubsetSize(sets[p], horizon);
    }
  }

  /** The pilot scan of one rotation: the index of the first pilot holding no
      rotation that starts on day d, or |planning| when there is none. */
  method FirstFit(planning: Planning, d: int) returns (p: nat)
    ensures p <= |planning|
    ensures forall q :: 0 <= q < p ==> HasStart(planning[q], d)
    ensures p < |planning| ==> !HasStart(planning[p], d)
    ensures p == FirstFree(planning, d)
  {
    p := 0;
    while p < |planning| && HasStart(planning[p], d)
      invariant 0 <= p <= |planning|
      invariant forall q :: 0 <= q < p ==> HasStart(planning[q], d)
      invariant FirstFreeFrom(planning, d, p) == FirstFree(planning, d)
    {
      p := p + 1;
    }
  }

  /** All rotations a pilot holds are held by the category. */
  lemma {:induction false} HeldContains(pl: Planning, p: nat)
    requires p < |pl|
    ensures multiset(pl[p]) <= Held(pl)
  {
    if p > 0 {
      HeldContains(pl[1..], p - 1);
    }
  }

  /** The simulation: size the staff, run the Ivoirien pass and then the Location
      pass over the shuffled pool, and report the idle days of the Location pilots. */
  method Simulate(catalog: seq<Rotation>, policy: Policy, shuffled: seq<Rotation>)
    returns (out: Result<Report, Error>)
    requires DivisorsPositive(catalog, policy)
    requires multiset(shuffled) == multiset(catalog)
    ensures out.Failure? <==> catalog == []
    ensures out.Failure? ==> out.error == EmptyProgramme(Staffing(0, 0, 0.0))
    ensures out.Success? ==>
              var s := Size(catalog, policy);
              var first := Pass(s.ivoirienUsed, shuffled);
              var second := Pass(LocationSlots(s), first.left);
              var r := out.value;
              r.staffing == s && r.ivoirien == first.planning && r.location == second.planning &&
              r.unassigned == second.left && |r.idle| == LocationSlots(s) &&
              forall p :: 0 <= p < |r.idle| ==> r.idle[p] == |FreeDays(Horizon(catalog), r.location[p])|
    ensures out.Success? ==>
              var r := out.value;
              Held(r.ivoirien) + Held(r.location) + multiset(r.unassigned) == multiset(catalog) &&
              TotalSize(r.ivoirien) + TotalSize(r.location) + |r.unassigned| == |catalog|
    ensures out.Success? ==> ConflictFree(out.value.ivoirien) && ConflictFree(out.value.location)
    ensures out.Success? ==>
              forall p :: 0 <= p < |out.value.idle| ==>
                out.value.idle[p] == |Horizon(catalog)| - |Covered(out.value.location[p])| &&
                out.value.idle[p] <= |Horizon(catalog)|
  {
    var staffing := Size(catalog, policy);
    if catalog == [] {
      EmptySizing(policy);
      return Failure(EmptyProgramme(staffing));
    }
    var sim := new Simulator(shuffled, Horizon(catalog));
    var nIvoirien: nat := Truncate(staffing.ivoirienUsed as real);
    var nLocation: nat := Truncate(staffing.locationUsed);
    sim.AssignCategory(Ivoirien, nIvoirien);
    ghost var first := Pass(nIvoirien, shuffled);
    sim.AssignCategory(Location, nLocation);
    ghost var second := Pass(nLocation, first.left);
    var idle := sim.IdleCounts();
    out := Success(Report(staffing, sim.plannings[Ivoirien], sim.plannings[Location], sim.pool, idle));

    TwoPasses(catalog, shuffled, nIvoirien, nLocation);
  }

  /** Across the Ivoirien pass and the Location pass over what it left: every
      rotation is held by one pilot or unassigned, no pilot holds two rotations
      starting on the same day, and each Location pilot's idle count is the
      horizon length minus its covered days. */
  lemma TwoPasses(catalog: seq<Rotation>, shuffled: seq<Rotation>, nIvoirien: nat, nLocation: nat)
    requires |catalog| > 0
    requires multiset(shuffled) == multiset(catalog)
    ensures var first := Pass(nIvoirien, shuffled);
            var second := Pass(nLocation, first.left);
            Held(first.planning) + Held(second.planning) + multiset(second.left) == multiset(catalog) &&
            TotalSize(first.planning) + TotalSize(second.planning) + |second.left| == |catalog| &&
            ConflictFree(first.planning) && ConflictFree(second.planning) &&
            forall p :: 0 <= p < nLocation ==>
              |FreeDays(Horizon(catalog), second.planning[p])| == |Horizon(catalog)| - |Covered(second.planning[p])| &&
              |FreeDays(Horizon(catalog), second.planning[p])| <= |Horizon(catalog)|
  {
    var first := Pass(nIvoirien, shuffled);
    var second := Pass(nLocation, first.left);
    PassConservation(nIvoirien, shuffled);
    PassConservation(nLocation, first.left);
    PassConflictFree(nIvoirien, shuffled);
    PassConflictFree(nLocation, first.left);
    assert |multiset(shuffled)| == |catalog|;
    forall p | 0 <= p < nLocation
      ensures |FreeDays(Horizon(catalog), second.planning[p])| == |Horizon(catalog)| - |Covered(second.planning[p])|
      ensures |FreeDays(Horizon(catalog), second.planning[p])| <= |Horizon(catalog)|
    {
      HeldContains(second.planning, p);
      forall x | x in second.planning[p] ensures x in catalog {
        assert x in multiset(catalog);
      }
      IdleCount(catalog, second.planning[p]);
    }
  }
}
