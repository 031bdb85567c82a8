/** Rotations of the flight programme, their calendar-day ranges, the planning
    horizon and the idle-day sets derived from them. Dates are day numbers. */
module Rotations {

  /** One row of the flight programme ("Programme_vols"): start and end day
      (inclusive), flight hours and the engagement days it costs. */
  datatype Rotation = Rotation(start: int, end: int, hours: nat, engagementDays: nat)

  /** The days of a daily date range from s to e, both included; empty when e < s. */
  function DateRange(s: int, e: int): (days: set<int>)
    ensures forall d :: d in days <==> s <= d <= e
    decreases e - s
  {
    if e < s then {} else DateRange(s, e - 1) + {e}
  }

  lemma {:induction false} DateRangeSize(s: int, e: int)
    ensures |DateRange(s, e)| == if e < s then 0 else e - s + 1
    decreases e - s
  {
    if e < s {
      assert DateRange(s, e) == {};
    } else {
      DateRangeSize(s, e - 1);
      assert DateRange(s, e) == DateRange(s, e - 1) + {e};
    }
  }

  /** True when some rotation of s starts on day d. */
  predicate HasStart(s: seq<Rotation>, d: int): (b: bool)
    ensures b <==> exists i :: 0 <= i < |s| && s[i].start == d
  {
    exists r :: r in s && r.start == d
  }

  /** No two rotations of s start on the same day. */
  predicate NoSharedStart(s: seq<Rotation>) {
    forall i, j :: 0 <= i < j < |s| ==> s[i].start != s[j].start
  }

  /** The days covered by the rotations of rs: the union of their inclusive ranges. */
  function Covered(rs: seq<Rotation>): (days: set<int>)
    ensures forall d :: d in days <==> exists i :: 0 <= i < |rs| && rs[i].start <= d <= rs[i].end
  {
    if rs == [] then {}
    else
      var front := rs[..|rs| - 1];
      var days := Covered(front) + DateRange(rs[|rs| - 1].start, rs[|rs| - 1].end);
      assert forall i :: 0 <= i < |front| ==> front[i] == rs[i];
      days
  }

  lemma CoveredAppend(rs: seq<Rotation>, r: Rotation)
    ensures Covered(rs + [r]) == Covered(rs) + DateRange(r.start, r.end)
  {
    assert (rs + [r])[..|rs|] == rs;
  }

  /** Earliest start day of a non-empty programme. */
  function MinStart(rs: seq<Rotation>): (m: int)
    requires |rs| > 0
    ensures forall i :: 0 <= i < |rs| ==> m <= rs[i].start
    ensures exists i :: 0 <= i < |rs| && rs[i].start == m
  {
    if |rs| == 1 then rs[0].start
    else
      var m := MinStart(rs[1..]);
      assert forall i :: 1 <= i < |rs| ==> rs[1..][i - 1] == rs[i];
      if rs[0].start <= m then rs[0].start else m
  }

  /** Latest end day of a non-empty programme. */
  function MaxEnd(rs: seq<Rotation>): (m: int)
    requires |rs| > 0
    ensures forall i :: 0 <= i < |rs| ==> rs[i].end <= m
    ensures exists i :: 0 <= i < |rs| && rs[i].end == m
  {
    if |rs| == 1 then rs[0].end
    else
      var m := MaxEnd(rs[1..]);
      assert forall i :: 1 <= i < |rs| ==> rs[1..][i - 1] == rs[i];
      if rs[0].end >= m then rs[0].end else m
  }

  /** The planning horizon: every day from the earliest start to the latest end. */
  function Horizon(catalog: seq<Rotation>): (h: set<int>)
    requires |catalog| > 0
    ensures forall d :: d in h <==>
              (exists i :: 0 <= i < |catalog| && catalog[i].start <= d) &&
              (exists j :: 0 <= j < |catalog| && d <= catalog[j].end)
  {
    DateRange(MinStart(catalog), MaxEnd(catalog))
  }

  /** The horizon has one day per calendar day from the earliest start to the latest end. */
  lemma HorizonSize(catalog: seq<Rotation>)
    requires |catalog| > 0
    ensures MinStart(catalog) <= MaxEnd(catalog) ==>
              |Horizon(catalog)| == MaxEnd(catalog) - MinStart(catalog) + 1
    ensures MaxEnd(catalog) < MinStart(catalog) ==> Horizon(catalog) == {}
  {
    DateRangeSize(MinStart(catalog), MaxEnd(catalog));
  }

  /** Every day a rotation of the programme covers lies inside the horizon. */
  lemma CoveredInHorizon(catalog: seq<Rotation>, rs: seq<Rotation>)
    requires |catalog| > 0
    requires forall x :: x in rs ==> x in catalog
    ensures Covered(rs) <= Horizon(catalog)
  {
    forall d | d in Covered(rs) ensures d in Horizon(catalog) {
      var i :| 0 <= i < |rs| && rs[i].start <= d <= rs[i].end;
      assert rs[i] in catalog;
      var j :| 0 <= j < |catalog| && catalog[j] == rs[i];
      assert MinStart(catalog) <= catalog[j].start && catalog[j].end <= MaxEnd(catalog);
    }
  }

  /** The free days of a pilot holding rs: the horizon minus the days rs covers. */
  function FreeDays(horizon: set<int>, rs: seq<Rotation>): (free: set<int>)
    ensures free <= horizon
    ensures forall d :: d in free <==>
              d in horizon && forall i :: 0 <= i < |rs| ==> !(rs[i].start <= d <= rs[i].end)
  {
    horizon - Covered(rs)
  }

  /** The idle-day count of a pilot whose rotations come from the programme is
      the horizon length minus the number of covered days, so it lies between
      0 and the horizon length. */
  lemma IdleCount(catalog: seq<Rotation>, rs: seq<Rotation>)
    requires |catalog| > 0
    requires forall x :: x in rs ==> x in catalog
    ensures |FreeDays(Horizon(catalog), rs)| == |Horizon(catalog)| - |Covered(rs)|
    ensures 0 <= |FreeDays(Horizon(catalog), rs)| <= |Horizon(catalog)|
  {
    var h := Horizon(catalog);
    CoveredInHorizon(catalog, rs);
    assert h == FreeDays(h, rs) + Covered(rs);
    assert FreeDays(h, rs) !! Covered(rs);
  }

  /** Assigning rotations never increases the idle-day count: the free set after
      all of rs is contained in the free set after any prefix of it. */
  lemma IdleNonIncreasing(horizon: set<int>, rs: seq<Rotation>, k: nat)
    requires k <= |rs|
    ensures FreeDays(horizon, rs) <= FreeDays(horizon, rs[..k])
    ensures |FreeDays(horizon, rs)| <= |FreeDays(horizon, rs[..k])|
  {
    forall d | d in Covered(rs[..k]) ensures d in Covered(rs) {
      var i :| 0 <= i < k && rs[..k][i].start <= d <= rs[..k][i].end;
      assert rs[..k][i] == rs[i];
    }
    SubsetSize(FreeDays(horizon, rs), FreeDays(horizon, rs[..k]));
  }

  lemma SubsetSize(a: set<int>, b: set<int>)
    requires a <= b
    ensures |a| <= |b|
  {
    assert b == a + (b - a);
  }
}
