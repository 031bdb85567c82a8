/** Pilot headcount sizing: total engagement days, resident ("Ivoirien") pilots
    needed, the part the existing resident pilots cover and the leased
    ("Location") pilots that make up the shortfall. The source computes in
    floating point; the model uses exact reals and proves the integer facts. */
module Sizing {
  import opened Rotations

  /** One row of the parameter table: working days per month and existing pilots. */
  datatype Contract = Contract(workingDays: int, existing: nat)

  /** The two contract rows the sizing reads. */
  datatype Policy = Policy(ivoirien: Contract, location: Contract)

  /** Pilots needed, resident pilots used and leased pilots used (a ratio). */
  datatype Staffing = Staffing(needed: nat, ivoirienUsed: nat, locationUsed: real)

  /** Sum of the engagement days of the programme. */
  function TotalEngagement(rs: seq<Rotation>): (total: nat)
    ensures forall i :: 0 <= i < |rs| ==> rs[i].engagementDays <= total
  {
    if rs == [] then 0
    else
      var front := rs[..|rs| - 1];
      assert forall i :: 0 <= i < |front| ==> front[i] == rs[i];
      TotalEngagement(front) + rs[|rs| - 1].engagementDays
  }

  lemma {:induction false} TotalEngagementZero(rs: seq<Rotation>)
    ensures TotalEngagement(rs) == 0 <==> forall i :: 0 <= i < |rs| ==> rs[i].engagementDays == 0
  {
    if rs != [] {
      var front := rs[..|rs| - 1];
      TotalEngagementZero(front);
      assert forall i :: 0 <= i < |front| ==> front[i] == rs[i];
    }
  }

  /** Rounding d / w up as the source does, by negating, flooring and negating again. */
  function CeilDiv(d: nat, w: int): (n: nat)
    requires w > 0
    ensures n * w >= d
    ensures n > 0 ==> (n - 1) * w < d
  {
    var x := d as real / w as real;
    CeilOfRatio(x, d, w);
    -((-x).Floor)
  }

  /** Rounding up a real x with x * w == d gives the least n with n * w >= d. */
  lemma CeilOfRatio(x: real, d: nat, w: int)
    requires w > 0
    requires x * w as real == d as real
    ensures var n := -((-x).Floor);
            n >= 0 && n * w >= d && (n > 0 ==> (n - 1) * w < d)
  {
    var n := -((-x).Floor);
    assert (n - 1) as real < x <= n as real;
    CancelFactor(0.0, x, w as real);
    ScaledBelow(x, n, d, w);
    ScaledAbove(x, n - 1, d, w);
  }

  lemma ScaledBelow(x: real, n: int, d: nat, w: int)
    requires w > 0 && x * w as real == d as real
    requires x <= n as real
    ensures n * w >= d
  {
    ScaleFactor(x, n as real, w as real);
    CastMul(n, w);
  }

  lemma ScaledAbove(x: real, m: int, d: nat, w: int)
    requires w > 0 && x * w as real == d as real
    requires m as real < x
    ensures m * w < d
  {
    ScaleFactor(m as real, x, w as real);
    CastMul(m, w);
  }

  /** CeilDiv(d, w) is the least n with n * w >= d. */
  lemma CeilDivLeast(d: nat, w: int, m: int)
    requires w > 0
    requires m * w >= d
    ensures CeilDiv(d, w) <= m
  {
  }

  /** CeilDiv agrees with integer ceiling division and is 0 exactly when d is 0. */
  lemma CeilDivInteger(d: nat, w: int)
    requires w > 0
    ensures CeilDiv(d, w) == (d + w - 1) / w
    ensures CeilDiv(d, w) == 0 <==> d == 0
  {
    var n := CeilDiv(d, w);
    var q := (d + w - 1) / w;
    var rem := (d + w - 1) % w;
    assert q * w + rem == d + w - 1 && 0 <= rem < w;
    assert (q - 1) * w == q * w - w;
    CeilDivLeast(d, w, q);
    if n <= q - 1 {
      MulMono(n, q - 1, w);
    }
  }

  lemma MulMono(a: int, b: int, w: int)
    requires a <= b && w > 0
    ensures a * w <= b * w
  {
    assert b * w - a * w == (b - a) * w;
  }

  /** Pilots needed: total engagement days over resident working days, rounded up. */
  function Needed(catalog: seq<Rotation>, policy: Policy): (n: nat)
    requires policy.ivoirien.workingDays > 0
    ensures n == (TotalEngagement(catalog) + policy.ivoirien.workingDays - 1) / policy.ivoirien.workingDays
    ensures n == 0 <==> forall i :: 0 <= i < |catalog| ==> catalog[i].engagementDays == 0
  {
    CeilDivInteger(TotalEngagement(catalog), policy.ivoirien.workingDays);
    TotalEngagementZero(catalog);
    CeilDiv(TotalEngagement(catalog), policy.ivoirien.workingDays)
  }

  /** The leased working days are a divisor only when residents fall short. */
  predicate DivisorsPositive(catalog: seq<Rotation>, policy: Policy) {
    policy.ivoirien.workingDays > 0 &&
    (policy.ivoirien.existing < Needed(catalog, policy) ==> policy.location.workingDays > 0)
  }

  /** The sizing: resident pilots used are min(needed, existing); a shortfall is
      converted to leased pilots by the ratio of working days per month. */
  function Size(catalog: seq<Rotation>, policy: Policy): (s: Staffing)
    requires DivisorsPositive(catalog, policy)
    ensures s.needed * policy.ivoirien.workingDays >= TotalEngagement(catalog)
    ensures s.needed > 0 ==> (s.needed - 1) * policy.ivoirien.workingDays < TotalEngagement(catalog)
    ensures s.ivoirienUsed <= s.needed && s.ivoirienUsed <= policy.ivoirien.existing
    ensures s.ivoirienUsed == s.needed || s.ivoirienUsed == policy.ivoirien.existing
    ensures policy.ivoirien.existing >= s.needed ==> s.locationUsed == 0.0
    ensures policy.ivoirien.existing < s.needed ==>
              s.locationUsed * policy.location.workingDays as real ==
              ((s.needed - s.ivoirienUsed) * policy.ivoirien.workingDays) as real
    ensures s.locationUsed >= 0.0
  {
    var needed := Needed(catalog, policy);
    if policy.ivoirien.existing >= needed then
      Staffing(needed, needed, 0.0)
    else
      var shortfall := needed - policy.ivoirien.existing;
      Staffing(needed, policy.ivoirien.existing,
               Convert(shortfall, policy.ivoirien.workingDays, policy.location.workingDays))
  }

  /** Resident pilots expressed as leased pilots working the same number of days. */
  function Convert(pilots: nat, fromDays: int, toDays: int): (x: real)
    requires fromDays > 0 && toDays > 0
    ensures x * toDays as real == (pilots * fromDays) as real
    ensures x >= 0.0
  {
    pilots as real * fromDays as real / toDays as real
  }

  /** Python's int() on a float: truncation toward zero. */
  function Truncate(x: real): (n: int)
    ensures x >= 0.0 ==> 0 <= n && n as real <= x < n as real + 1.0
    ensures x < 0.0 ==> n <= 0 && n as real - 1.0 < x <= n as real
  {
    if x >= 0.0 then x.Floor else -((-x).Floor)
  }

  /** Pilot slots created for the leased category: the leased count truncated. */
  function LocationSlots(s: Staffing): (n: nat)
    requires s.locationUsed >= 0.0
    ensures n as real <= s.locationUsed < n as real + 1.0
  {
    Truncate(s.locationUsed)
  }

  /** The leased slot count is the integer quotient of the shortfall's working
      days by the leased working days; the fractional pilot is dropped. */
  lemma LocationSlotsInteger(catalog: seq<Rotation>, policy: Policy)
    requires DivisorsPositive(catalog, policy)
    ensures var s := Size(catalog, policy);
            LocationSlots(s) as real <= s.locationUsed < LocationSlots(s) as real + 1.0 &&
            LocationSlots(s) ==
              if policy.ivoirien.existing >= s.needed then 0
              else ((s.needed - policy.ivoirien.existing) * policy.ivoirien.workingDays) / policy.location.workingDays
  {
    var s := Size(catalog, policy);
    if policy.ivoirien.existing < s.needed {
      var pilots := s.needed - policy.ivoirien.existing;
      ConvertFloor(pilots, policy.ivoirien.workingDays, policy.location.workingDays);
    }
  }

  /** Truncating a converted headcount is integer division of the working days. */
  lemma ConvertFloor(pilots: nat, fromDays: int, toDays: int)
    requires fromDays > 0 && toDays > 0
    ensures Truncate(Convert(pilots, fromDays, toDays)) == (pilots * fromDays) / toDays
  {
    TruncateRatio(Convert(pilots, fromDays, toDays), pilots * fromDays, toDays);
  }

  /** A real x with x * b == a truncates to the integer quotient a / b. */
  lemma TruncateRatio(x: real, a: nat, b: int)
    requires b > 0
    requires x * b as real == a as real
    ensures Truncate(x) == a / b
  {
    var q := a / b;
    QuotientBounds(a, b);
    UnscaledAbove(x, q, a, b);
    UnscaledBelow(x, q + 1, a, b);
    var n := Truncate(x);
    assert n as real <= x < n as real + 1.0;
    assert n as real < (q + 1) as real && q as real < (n + 1) as real;
    assert n < q + 1 && q < n + 1;
  }

  lemma UnscaledAbove(x: real, q: int, a: nat, b: int)
    requires b > 0 && x * b as real == a as real
    requires q * b <= a
    ensures q as real <= x
  {
    CastMul(q, b);
    CancelFactor(q as real, x, b as real);
  }

  lemma UnscaledBelow(x: real, m: int, a: nat, b: int)
    requires b > 0 && x * b as real == a as real
    requires a < m * b
    ensures x < m as real
  {
    CastMul(m, b);
    CancelFactor(x, m as real, b as real);
  }

  lemma QuotientBounds(a: nat, b: int)
    requires b > 0
    ensures (a / b) * b <= a < (a / b + 1) * b
  {
    assert a == (a / b) * b + a % b;
    assert (a / b + 1) * b == (a / b) * b + b;
  }

  lemma CastMul(i: int, j: int)
    ensures (i * j) as real == i as real * j as real
  {
  }

  lemma ScaleFactor(x: real, y: real, c: real)
    requires c > 0.0
    ensures x <= y ==> x * c <= y * c
    ensures x < y ==> x * c < y * c
  {
  }

  lemma CancelFactor(x: real, y: real, c: real)
    requires c > 0.0
    ensures x * c <= y * c ==> x <= y
    ensures x * c < y * c ==> x < y
  {
  }

  /** An empty programme sizes to no pilot of either category. */
  lemma EmptySizing(policy: Policy)
    requires policy.ivoirien.workingDays > 0
    ensures DivisorsPositive([], policy)
    ensures Size([], policy) == Staffing(0, 0, 0.0)
  {
    assert TotalEngagement([]) == 0;
    CeilDivInteger(0, policy.ivoirien.workingDays);
  }

  /** 130 engagement days at 26 working days a month need 5 pilots. */
  lemma NeededExample()
    ensures CeilDiv(130, 26) == 5
  {
    CeilDivInteger(130, 26);
  }

  /** 3 existing residents for 5 needed, at 26 and 22 working days: 3 residents,
      52/22 leased pilots, of which 2 become slots. */
  lemma SplitExample(catalog: seq<Rotation>)
    requires TotalEngagement(catalog) == 130
    ensures var policy := Policy(Contract(26, 3), Contract(22, 0));
            var s := Size(catalog, policy);
            s.needed == 5 && s.ivoirienUsed == 3 && s.locationUsed == 52.0 / 22.0 &&
            LocationSlots(s) == 2
  {
    var policy := Policy(Contract(26, 3), Contract(22, 0));
    NeededExample();
    LocationSlotsInteger(catalog, policy);
  }
}
