/** The greedy first-fit pass of one contract category, as pure functions over
    the pool order, and the properties every pass keeps. */
module Assignment {
  import opened Rotations

  /** The rotation lists of one category's pilots; index p is pilot p + 1. */
  type Planning = seq<seq<Rotation>>

  /** n pilots with empty lists. */
  function EmptyPlanning(n: nat): (pl: Planning)
    ensures |pl| == n && forall p :: 0 <= p < n ==> pl[p] == []
  {
    seq(n, _ => [])
  }

  /** The first pilot at or after p holding no rotation that starts on day d;
      |pl| when every such pilot holds one. */
  function FirstFreeFrom(pl: Planning, d: int, p: nat): (i: nat)
    requires p <= |pl|
    ensures p <= i <= |pl|
    ensures forall q :: p <= q < i ==> HasStart(pl[q], d)
    ensures i < |pl| ==> !HasStart(pl[i], d)
    decreases |pl| - p
  {
    if p == |pl| then p
    else if !HasStart(pl[p], d) then p
    else FirstFreeFrom(pl, d, p + 1)
  }

  /** The first pilot holding no rotation that starts on day d; |pl| when every pilot holds one. */
  function FirstFree(pl: Planning, d: int): (i: nat)
    ensures i <= |pl|
    ensures forall q :: 0 <= q < i ==> HasStart(pl[q], d)
    ensures i < |pl| ==> !HasStart(pl[i], d)
  {
    FirstFreeFrom(pl, d, 0)
  }

  /** What one pass has produced so far: the pilots' lists and the rotations it left in the pool. */
  datatype PassState = PassState(planning: Planning, left: seq<Rotation>)

  /** Offer rotation r: append it to the first pilot without its start day, or leave it. */
  function Step(st: PassState, r: Rotation): (st': PassState)
    ensures |st'.planning| == |st.planning|
    ensures st'.left == st.left + [r] <==>
              forall p :: 0 <= p < |st.planning| ==> HasStart(st.planning[p], r.start)
    ensures st'.left == st.left || st'.left == st.left + [r]
  {
    var i := FirstFree(st.planning, r.start);
    if i < |st.planning| then
      st.(planning := st.planning[i := st.planning[i] + [r]])
    else st.(left := st.left + [r])
  }

  /** The pass of a category with n pilots over the pool rs, in pool order. */
  function Pass(n: nat, rs: seq<Rotation>): (st: PassState)
    ensures |st.planning| == n
    decreases |rs|
  {
    if rs == [] then PassState(EmptyPlanning(n), [])
    else Step(Pass(n, rs[..|rs| - 1]), rs[|rs| - 1])
  }

  lemma PassSnoc(n: nat, rs: seq<Rotation>, r: Rotation)
    ensures Pass(n, rs + [r]) == Step(Pass(n, rs), r)
  {
    assert (rs + [r])[..|rs|] == rs;
  }

  /** First fit: a rotation goes to the lowest-index pilot holding no rotation
      with its start day, and stays in the pool only when every pilot holds one. */
  lemma StepFirstFit(st: PassState, r: Rotation)
    ensures (exists p :: 0 <= p < |st.planning| && !HasStart(st.planning[p], r.start)) ==>
              exists i :: 0 <= i < |st.planning| && !HasStart(st.planning[i], r.start) &&
                (forall q :: 0 <= q < i ==> HasStart(st.planning[q], r.start)) &&
                Step(st, r) == PassState(st.planning[i := st.planning[i] + [r]], st.left)
    ensures (forall p :: 0 <= p < |st.planning| ==> HasStart(st.planning[p], r.start)) ==>
              Step(st, r) == PassState(st.planning, st.left + [r])
  {
    var i := FirstFree(st.planning, r.start);
    if i < |st.planning| {
      assert !HasStart(st.planning[i], r.start);
    }
  }

  /** The planning invariant: no pilot holds two rotations with the same start day. */
  predicate ConflictFree(pl: Planning) {
    forall p :: 0 <= p < |pl| ==> NoSharedStart(pl[p])
  }

  lemma {:induction false} PassConflictFree(n: nat, rs: seq<Rotation>)
    ensures ConflictFree(Pass(n, rs).planning)
    decreases |rs|
  {
    if rs != [] {
      var st := Pass(n, rs[..|rs| - 1]);
      var r := rs[|rs| - 1];
      PassConflictFree(n, rs[..|rs| - 1]);
      var i := FirstFree(st.planning, r.start);
      if i < n {
        var s := st.planning[i];
        assert !HasStart(s, r.start);
        forall a, b | 0 <= a < b < |s + [r]| ensures (s + [r])[a].start != (s + [r])[b].start {
          if b == |s| {
            assert s[a] in s;
          }
        }
      }
    }
  }

  /** All rotations held by the pilots of pl, as a multiset. */
  function Held(pl: Planning): multiset<Rotation>
  {
    if pl == [] then multiset{} else multiset(pl[0]) + Held(pl[1..])
  }

  /** Number of rotations held by the pilots of pl. */
  function TotalSize(pl: Planning): nat
  {
    if pl == [] then 0 else |pl[0]| + TotalSize(pl[1..])
  }

  lemma {:induction false} HeldAppend(pl: Planning, i: nat, r: Rotation)
    requires i < |pl|
    ensures Held(pl[i := pl[i] + [r]]) == Held(pl) + multiset{r}
    ensures TotalSize(pl[i := pl[i] + [r]]) == TotalSize(pl) + 1
  {
    var pl' := pl[i := pl[i] + [r]];
    if i == 0 {
      assert pl'[1..] == pl[1..];
    } else {
      HeldAppend(pl[1..], i - 1, r);
      assert pl'[1..] == pl[1..][i - 1 := pl[1..][i - 1] + [r]];
    }
  }

  lemma {:induction false} HeldSize(pl: Planning)
    ensures |Held(pl)| == TotalSize(pl)
  {
    if pl != [] {
      HeldSize(pl[1..]);
    }
  }

  lemma {:induction false} EmptyHeld(n: nat)
    ensures Held(EmptyPlanning(n)) == multiset{} && TotalSize(EmptyPlanning(n)) == 0
  {
    if n > 0 {
      EmptyHeld(n - 1);
      assert EmptyPlanning(n)[1..] == EmptyPlanning(n - 1);
    }
  }

  /** Conservation: every rotation of the pool ends up either held by exactly one
      pilot or left in the pool, never both and never twice. */
  lemma {:induction false} PassConservation(n: nat, rs: seq<Rotation>)
    ensures Held(Pass(n, rs).planning) + multiset(Pass(n, rs).left) == multiset(rs)
    ensures TotalSize(Pass(n, rs).planning) + |Pass(n, rs).left| == |rs|
    decreases |rs|
  {
    if rs == [] {
      EmptyHeld(n);
    } else {
      var front := rs[..|rs| - 1];
      var r := rs[|rs| - 1];
      assert rs == front + [r];
      PassConservation(n, front);
      var st := Pass(n, front);
      var i := FirstFree(st.planning, r.start);
      if i < n {
        HeldAppend(st.planning, i, r);
      }
    }
    HeldSize(Pass(n, rs).planning);
  }

  lemma HasStartGrows(s: seq<Rotation>, t: seq<Rotation>, d: int)
    requires HasStart(s, d)
    ensures HasStart(s + t, d)
  {
    var r :| r in s && r.start == d;
    assert r in s + t;
  }

  /** A rotation left in the pool after the pass has a start day that every pilot
      of the category already holds. */
  lemma {:induction false} PassSurvivors(n: nat, rs: seq<Rotation>)
    ensures forall x, p :: x in Pass(n, rs).left && 0 <= p < n ==> HasStart(Pass(n, rs).planning[p], x.start)
    decreases |rs|
  {
    if rs != [] {
      var front := rs[..|rs| - 1];
      var r := rs[|rs| - 1];
      PassSurvivors(n, front);
      var st := Pass(n, front);
      var i := FirstFree(st.planning, r.start);
      if i < n {
        forall x, p | x in st.left && 0 <= p < n
          ensures HasStart(Pass(n, rs).planning[p], x.start)
        {
          if p == i {
            HasStartGrows(st.planning[i], [r], x.start);
          }
        }
      }
    }
  }

  /** s is a prefix of t. */
  predicate IsPrefix(s: seq<Rotation>, t: seq<Rotation>) {
    |s| <= |t| && t[..|s|] == s
  }

  /** Append-only: after any prefix of the pool, each pilot's list and the left-over
      list are prefixes of what they are at the end of the pass. */
  lemma {:induction false} PassAppendOnly(n: nat, rs: seq<Rotation>, k: nat)
    requires k <= |rs|
    ensures forall p :: 0 <= p < n ==> IsPrefix(Pass(n, rs[..k]).planning[p], Pass(n, rs).planning[p])
    ensures IsPrefix(Pass(n, rs[..k]).left, Pass(n, rs).left)
    decreases |rs| - k
  {
    if k == |rs| {
      assert rs[..k] == rs;
    } else {
      PassAppendOnly(n, rs, k + 1);
      assert rs[..k + 1][..k] == rs[..k];
      var st := Pass(n, rs[..k]);
      var st' := Pass(n, rs[..k + 1]);
      var fin := Pass(n, rs);
      forall p | 0 <= p < n ensures IsPrefix(st.planning[p], fin.planning[p]) {
        assert IsPrefix(st.planning[p], st'.planning[p]);
        assert fin.planning[p][..|st'.planning[p]|] == st'.planning[p];
        assert fin.planning[p][..|st.planning[p]|] == st'.planning[p][..|st.planning[p]|];
      }
      assert IsPrefix(st.left, st'.left);
      assert fin.left[..|st.left|] == st'.left[..|st.left|];
    }
  }

  /** s is a subsequence of t: its elements occur in t in the same order. */
  predicate Subseq(s: seq<Rotation>, t: seq<Rotation>)
    decreases |t|
  {
    if s == [] then true
    else if t == [] then false
    else (s[|s| - 1] == t[|t| - 1] && Subseq(s[..|s| - 1], t[..|t| - 1])) || Subseq(s, t[..|t| - 1])
  }

  lemma SubseqSkip(s: seq<Rotation>, t: seq<Rotation>, r: Rotation)
    requires Subseq(s, t)
    ensures Subseq(s, t + [r]) && Subseq(s + [r], t + [r])
  {
    assert (t + [r])[..|t|] == t;
    assert (s + [r])[..|s|] == s;
  }

  /** Every pilot's list, and the left-over list, keep the pool order. */
  lemma {:induction false} PassKeepsOrder(n: nat, rs: seq<Rotation>)
    ensures forall p :: 0 <= p < n ==> Subseq(Pass(n, rs).planning[p], rs)
    ensures Subseq(Pass(n, rs).left, rs)
    decreases |rs|
  {
    if rs != [] {
      var front := rs[..|rs| - 1];
      var r := rs[|rs| - 1];
      assert rs == front + [r];
      PassKeepsOrder(n, front);
      var st := Pass(n, front);
      forall p | 0 <= p < n ensures Subseq(Pass(n, rs).planning[p], rs) {
        SubseqSkip(st.planning[p], front, r);
      }
      SubseqSkip(st.left, front, r);
    }
  }

  /** Three rotations on the same start day and one pilot: one assigned, two left. */
  lemma SameStartExample(a: Rotation, b: Rotation, c: Rotation)
    requires a.start == b.start == c.start
    ensures Pass(1, [a, b, c]).planning == [[a]]
    ensures Pass(1, [a, b, c]).left == [b, c]
  {
    assert [a, b, c][..2] == [a, b];
    assert [a, b][..1] == [a];
    assert [a][..0] == [];
    assert !HasStart([], a.start);
    assert EmptyPlanning(1) == [[]];
    assert FirstFree([[]], a.start) == 0;
    assert Pass(1, []) == PassState([[]], []);
    var none: seq<Rotation> := [];
    var one: Planning := [none];
    assert none + [a] == [a];
    assert one[0 := none + [a]] == [[a]];
    assert Step(PassState(one, []), a) == PassState([[a]], []);
    assert Pass(1, [a]) == PassState([[a]], []);
    assert HasStart([a], b.start) && HasStart([a], c.start) by {
      assert a in [a];
    }
    assert FirstFree([[a]], b.start) == 1;
    assert Pass(1, [a, b]) == PassState([[a]], [b]);
    assert FirstFree([[a]], c.start) == 1;
  }

  /** The conflict check compares start days only: one pilot can be given two
      rotations whose day ranges overlap, here days 1-5 and 3-4. */
  lemma OverlapAccepted(h1: nat, h2: nat, e1: nat, e2: nat)
    ensures var r1 := Rotation(1, 5, h1, e1);
            var r2 := Rotation(3, 4, h2, e2);
            Pass(1, [r1, r2]).planning == [[r1, r2]] &&
            DateRange(r1.start, r1.end) * DateRange(r2.start, r2.end) != {}
  {
    var r1 := Rotation(1, 5, h1, e1);
    var r2 := Rotation(3, 4, h2, e2);
    assert [r1, r2][..1] == [r1];
    assert [r1][..0] == [];
    var none: seq<Rotation> := [];
    var one: Planning := [none];
    assert EmptyPlanning(1) == one;
    assert !HasStart(none, r1.start);
    assert FirstFree(one, r1.start) == 0;
    assert none + [r1] == [r1];
    assert one[0 := none + [r1]] == [[r1]];
    assert Pass(1, [r1]) == PassState([[r1]], []);
    assert !HasStart([r1], r2.start);
    assert FirstFree([[r1]], r2.start) == 0;
    var single: Planning := [[r1]];
    assert [r1] + [r2] == [r1, r2];
    assert single[0 := [r1] + [r2]] == [[r1, r2]];
    assert 3 in DateRange(r1.start, r1.end) * DateRange(r2.start, r2.end);
  }

  /** Assigning rotations never increases a pilot's idle-day count: the free set
      after the whole pool is contained in the free set after any prefix of it. */
  lemma PassIdleNonIncreasing(horizon: set<int>, n: nat, rs: seq<Rotation>, k: nat, p: nat)
    requires k <= |rs| && p < n
    ensures FreeDays(horizon, Pass(n, rs).planning[p]) <= FreeDays(horizon, Pass(n, rs[..k]).planning[p])
    ensures |FreeDays(horizon, Pass(n, rs).planning[p])| <= |FreeDays(horizon, Pass(n, rs[..k]).planning[p])|
  {
    PassAppendOnly(n, rs, k);
    var part := Pass(n, rs[..k]).planning[p];
    IdleNonIncreasing(horizon, Pass(n, rs).planning[p], |part|);
  }

  /** Two categories scanned together: the first category's lists, the second
      category's lists and the rotations neither took. */
  datatype PairState = PairState(first: Planning, second: Planning, left: seq<Rotation>)

  /** Offer r to the first category's pilots, then to the second's, and leave it
      when no pilot of either can take it. */
  function Offer(st: PairState, r: Rotation): (st': PairState)
    ensures |st'.first| == |st.first| && |st'.second| == |st.second|
    ensures st'.left == st.left + [r] <==>
              (forall p :: 0 <= p < |st.first| ==> HasStart(st.first[p], r.start)) &&
              (forall p :: 0 <= p < |st.second| ==> HasStart(st.second[p], r.start))
  {
    var i := FirstFree(st.first, r.start);
    if i < |st.first| then st.(first := st.first[i := st.first[i] + [r]])
    else
      var j := FirstFree(st.second, r.start);
      if j < |st.second| then st.(second := st.second[j := st.second[j] + [r]])
      else st.(left := st.left + [r])
  }

  /** The rotation-by-rotation scan over both categories, in pool order. */
  function Interleaved(n1: nat, n2: nat, rs: seq<Rotation>): (st: PairState)
    ensures |st.first| == n1 && |st.second| == n2
    decreases |rs|
  {
    if rs == [] then PairState(EmptyPlanning(n1), EmptyPlanning(n2), [])
    else Offer(Interleaved(n1, n2, rs[..|rs| - 1]), rs[|rs| - 1])
  }

  /** Running a full pass per category, the second over what the first left,
      gives the same plannings and left-over rotations as offering each rotation
      to every slot of both categories in turn. */
  lemma {:induction false} PassesInterleave(n1: nat, n2: nat, rs: seq<Rotation>)
    ensures var first := Pass(n1, rs);
            var second := Pass(n2, first.left);
            Interleaved(n1, n2, rs) == PairState(first.planning, second.planning, second.left)
    decreases |rs|
  {
    if rs != [] {
      var front := rs[..|rs| - 1];
      var r := rs[|rs| - 1];
      PassesInterleave(n1, n2, front);
      var first := Pass(n1, front);
      if FirstFree(first.planning, r.start) == n1 {
        PassSnoc(n2, first.left, r);
      }
    }
  }

  /** Python's list.remove: drop the first element equal to x. */
  function RemoveFirst(s: seq<Rotation>, x: Rotation): (t: seq<Rotation>)
    requires x in s
    ensures |t| == |s| - 1
    ensures multiset(t) == multiset(s) - multiset{x}
  {
    if s[0] == x then
      assert s == [x] + s[1..];
      s[1..]
    else
      assert s == [s[0]] + s[1..];
      [s[0]] + RemoveFirst(s[1..], x)
  }

  /** When x does not occur before the element being scanned, list.remove takes
      out exactly that element. */
  lemma {:induction false} RemoveFirstAt(left: seq<Rotation>, rest: seq<Rotation>, x: Rotation)
    requires x !in left
    requires |rest| > 0 && rest[0] == x
    ensures RemoveFirst(left + rest, x) == left + rest[1..]
  {
    if left == [] {
      assert left + rest == rest;
    } else {
      var s := left + rest;
      assert s[0] == left[0] != x;
      assert s[1..] == left[1..] + rest;
      RemoveFirstAt(left[1..], rest, x);
      assert RemoveFirst(s, x) == [s[0]] + RemoveFirst(s[1..], x);
      assert left == [left[0]] + left[1..];
    }
  }
}
