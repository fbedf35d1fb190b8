/**
  The bounds of LRU and FIFO cannot be improved: for all numbers of frames there are strings on which
  both fault at every reference, while fewer frames do with as little as the bounds leave them.
 */
module Tightness {
  import opened Basics
  import opened Schedules
  import opened Frames
  import opened Fifo
  import opened Lru

  // ----- strings on which every reference faults -----

  /** Any `k + 1` references in a row are to different pages. */
  ghost predicate Spread(refs: seq<int>, k: nat) {
    forall s, t | 0 <= s < t < |refs| && t <= s + k :: refs[s] != refs[t]
  }

  lemma {:induction false} AllFault(refs: seq<int>, r: Run, n: nat)
    requires n <= |refs| < |r.frames| && forall i | 0 <= i < n :: !Scan(r.frames[i], refs[i], 0).Hit?
    ensures Counted(refs, r, n) == n
    decreases n
  {
    hide Scan;
    if n > 0 {
      AllFault(refs, r, n - 1);
    }
  }

  lemma SpreadStretch(refs: seq<int>, k: nat, i: nat)
    requires Spread(refs, k) && k <= i <= |refs|
    ensures |Pages(refs, i - k, i)| == k
  {
    var s := refs[i - k..i];
    forall a, b | 0 <= a < b < |s| ensures s[a] != s[b] {
      assert s[a] == refs[i - k + a] && s[b] == refs[i - k + b];
    }
    DistinctCount(s);
    assert Pages(refs, i - k, i) == set x | x in s by {
      forall x | x in Pages(refs, i - k, i) ensures x in s {
        var j :| i - k <= j < i && refs[j] == x;
        assert s[j - (i - k)] == x;
      }
    }
  }

  /** The page asked for next is older than `k` others, or new. */
  lemma NotRecent(refs: seq<int>, k: nat, i: nat)
    requires k >= 1 && Spread(refs, k) && i < |refs|
    ensures refs[i] !in Recent(refs, i, k)
  {
    var p := refs[i];
    if p in Pages(refs, 0, i) {
      UsedPages(refs, i, p);
      var s := LastUse(refs, p, i);
      assert s + k < i;
      forall q | q in Pages(refs, i - k, i) ensures q in Newer(refs, i, p) {
        var j :| i - k <= j < i && refs[j] == q;
        assert LastUse(refs, q, i) >= j;
        assert q in Pages(refs, 0, i);
      }
      SpreadStretch(refs, k, i);
      Subset(Pages(refs, i - k, i), Newer(refs, i, p));
    }
  }

  lemma LruFaultsAlways(refs: seq<int>, k: nat, r: Run)
    requires k >= 1 && Spread(refs, k) && PageNumbers(refs) && IsLruRun(refs, k, r)
    ensures Counted(refs, r, |refs|) == |refs|
  {
    hide Spread, Recent, Resident, LruVictims, Serves, Scan;
    forall i | 0 <= i < |refs| ensures !Scan(r.frames[i], refs[i], 0).Hit? {
      HitIsResident(refs, k, r, i);
      LruStack(refs, k, r, i);
      NotRecent(refs, k, i);
    }
    AllFault(refs, r, |refs|);
  }

  lemma {:induction false} LoadsAll(refs: seq<int>, k: nat, n: nat)
    requires Spread(refs, k) && n <= |refs|
    ensures Loads(refs, k, n) == refs[..n]
    decreases n
  {
    hide Window, Spread;
    if n > 0 {
      LoadsAll(refs, k, n - 1);
      NotInWindow(refs, k, n - 1);
      assert refs[..n - 1] + [refs[n - 1]] == refs[..n];
    }
  }

  lemma NotInWindow(refs: seq<int>, k: nat, n: nat)
    requires Spread(refs, k) && n < |refs|
    ensures refs[n] !in Window(refs[..n], k)
  {
    var w := Window(refs[..n], k);
    forall j | 0 <= j < |w| ensures w[j] != refs[n] {
      assert w[j] == refs[n - |w| + j];
    }
  }

  lemma FifoFaultsAlways(refs: seq<int>, k: nat, r: Run)
    requires k >= 1 && Spread(refs, k) && PageNumbers(refs) && IsFifoRun(refs, k, r)
    ensures Counted(refs, r, |refs|) == |refs|
  {
    hide Spread, Loads, Window, Resident;
    FifoIsTheQueue(refs, k, r, |refs|);
    LoadsAll(refs, k, |refs|);
  }

  // ----- phases of k references -----

  /** `k - h + 1` new pages, then the last `h` pages of the phase before except the very last. */
  function Phase(refs: seq<int>, h: nat, k: nat): (ps: seq<int>)
    requires 1 <= h <= k && (refs == [] || |refs| >= k)
    ensures |ps| == k
  {
    seq(k, j requires 0 <= j < k =>
      if refs == [] || j < k - h + 1 then |refs| + j else refs[|refs| + j - k - 1])
  }

  function Phases(h: nat, k: nat, n: nat): (refs: seq<int>)
    requires 1 <= h <= k
    ensures if n == 0 then refs == [] else |refs| >= k
  {
    if n == 0 then [] else Phases(h, k, n - 1) + Phase(Phases(h, k, n - 1), h, k)
  }

  ghost predicate Below(refs: seq<int>, n: nat) {
    forall t | 0 <= t < |refs| :: 0 <= refs[t] < n
  }

  lemma PhaseSpreads(refs: seq<int>, h: nat, k: nat)
    requires 1 <= h <= k && (refs == [] || |refs| >= k) && Spread(refs, k) && Below(refs, |refs|)
    ensures Spread(refs + Phase(refs, h, k), k) && Below(refs + Phase(refs, h, k), |refs| + k)
  {
    var n, refs' := |refs|, refs + Phase(refs, h, k);
    forall s, t | 0 <= s < t < |refs'| && t <= s + k ensures refs'[s] != refs'[t] {
      if t >= n && refs != [] && t - n >= k - h + 1 {
        assert refs'[t] == refs[t - k - 1];
        if s >= n && s - n >= k - h + 1 {
          assert refs'[s] == refs[s - k - 1];
        }
      }
    }
  }

  lemma {:induction false} PhasesSpread(h: nat, k: nat, n: nat)
    requires 1 <= h <= k
    ensures Spread(Phases(h, k, n), k) && PageNumbers(Phases(h, k, n)) && |Phases(h, k, n)| == n * k
    ensures Below(Phases(h, k, n), |Phases(h, k, n)|)
    decreases n
  {
    if n > 0 {
      hide Phase, Spread;
      PhasesSpread(h, k, n - 1);
      PhaseSpreads(Phases(h, k, n - 1), h, k);
      assert n * k == (n - 1) * k + k;
    } else {
      NothingSpreads(k);
    }
  }

  lemma NothingSpreads(k: nat)
    ensures Spread([], k)
  {
  }

  // ----- a schedule that knows the phases -----

  ghost function Members(s: seq<int>): (x: set<int>)
    ensures |x| <= |s|
    decreases |s|
  {
    if s == [] then {}
    else
      WithPage(Members(s[..|s| - 1]), s[|s| - 1]);
      Members(s[..|s| - 1]) + {s[|s| - 1]}
  }

  lemma {:induction false} MemberOf(s: seq<int>, p: int)
    ensures p in Members(s) <==> p in s
    decreases |s|
  {
    if s != [] {
      MemberOf(s[..|s| - 1], p);
      assert s == s[..|s| - 1] + [s[|s| - 1]];
    }
  }

  /** The last `h` references before position `j`. */
  function Latest(refs: seq<int>, h: nat, j: nat): (s: seq<int>)
    requires j <= |refs|
    ensures |s| <= h
  {
    if j <= h then refs[..j] else refs[j - h..j]
  }

  /** One more reference pushes its page, and at most one other page out. */
  lemma LatestGrows(refs: seq<int>, h: nat, j: nat, p: int)
    requires h >= 1 && j < |refs|
    ensures refs[j] in Latest(refs, h, j + 1)
    ensures p in Latest(refs, h, j + 1) ==> p == refs[j] || p in Latest(refs, h, j)
  {
    var a, b := Latest(refs, h, j), Latest(refs, h, j + 1);
    if j < h {
      assert b == a + [refs[j]];
    } else {
      assert a == [a[0]] + a[1..];
      assert b == a[1..] + [refs[j]];
    }
  }

  lemma LatestMoves(refs: seq<int>, h: nat, j: nat)
    requires h >= 1 && j < |refs|
    ensures Moves(Members(Latest(refs, h, j)), refs[j], Members(Latest(refs, h, j + 1)), h)
  {
    hide Latest, Members;
    MemberOf(Latest(refs, h, j + 1), refs[j]);
    LatestGrows(refs, h, j, refs[j]);
    forall p | p in Members(Latest(refs, h, j + 1)) ensures p == refs[j] || p in Members(Latest(refs, h, j)) {
      MemberOf(Latest(refs, h, j), p);
      MemberOf(Latest(refs, h, j + 1), p);
      LatestGrows(refs, h, j, p);
    }
  }

  /** In the first phase: simply the latest pages. */
  lemma FirstPhase(h: nat, k: nat) returns (t: seq<set<int>>)
    requires 1 <= h <= k
    ensures IsSchedule(Phase([], h, k), h, t) && t[k] == Members(Latest(Phase([], h, k), h, k))
    ensures Cost(Phase([], h, k), t) <= k
  {
    hide Phase, Moves, Latest;
    var refs := Phase([], h, k);
    t := seq(k + 1, j requires 0 <= j <= k => Members(Latest(refs, h, j)));
    LatestOfNone(refs, h);
    forall j | 0 <= j < k ensures Moves(t[j], refs[j], t[j + 1], h) {
      LatestMoves(refs, h, j);
    }
    FaultsAtMost(refs, t, 0, k, 0);
  }

  lemma LatestOfNone(refs: seq<int>, h: nat)
    ensures Members(Latest(refs, h, 0)) == {}
  {
    assert Latest(refs, h, 0) == [];
  }

  /** Before reference `j` of a later phase: the pages that come back, and the newest. */
  ghost function InPhase(refs: seq<int>, h: nat, k: nat, j: nat): (x: set<int>)
    requires 1 <= h <= k <= |refs|
    ensures |x| <= h
  {
    var kept := refs[|refs| - h..|refs| - 1];
    if j == 0 then Members(Latest(refs, h, |refs|))
    else
      var newest := if j < k - h + 1 then j else k - h + 1;
      WithPage(Members(kept), |refs| + newest - 1);
      Members(kept) + {|refs| + newest - 1}
  }

  lemma InPhaseHas(refs: seq<int>, h: nat, k: nat, j: nat, p: int)
    requires 1 <= h <= k <= |refs|
    ensures j == 0 ==> (p in InPhase(refs, h, k, j) <==> p in refs[|refs| - h..])
    ensures j > 0 ==> (p in InPhase(refs, h, k, j) <==>
      p in refs[|refs| - h..|refs| - 1] || p == |refs| + (if j < k - h + 1 then j else k - h + 1) - 1)
  {
    MemberOf(refs[|refs| - h..|refs| - 1], p);
    MemberOf(Latest(refs, h, |refs|), p);
    assert Latest(refs, h, |refs|) == refs[|refs| - h..];
  }

  lemma InPhaseMoves(refs: seq<int>, h: nat, k: nat, j: nat)
    requires 1 <= h <= k <= |refs| && j < k
    ensures Moves(InPhase(refs, h, k, j), Phase(refs, h, k)[j], InPhase(refs, h, k, j + 1), h)
    ensures j >= k - h + 1 ==> Phase(refs, h, k)[j] in InPhase(refs, h, k, j)
  {
    hide InPhase;
    forall i, p | i in {j, j + 1}
      ensures i == 0 ==> (p in InPhase(refs, h, k, i) <==> p in refs[|refs| - h..])
      ensures i > 0 ==> (p in InPhase(refs, h, k, i) <==>
        p in refs[|refs| - h..|refs| - 1] || p == |refs| + (if i < k - h + 1 then i else k - h + 1) - 1)
    {
      InPhaseHas(refs, h, k, i, p);
    }
    var page, kept := Phase(refs, h, k)[j], refs[|refs| - h..|refs| - 1];
    assert forall p :: p in kept ==> p in refs[|refs| - h..] by {
      assert kept == refs[|refs| - h..][..h - 1];
    }
    if j >= k - h + 1 {
      assert kept[j - (k - h + 1)] == page;
    }
  }

  lemma InPhaseEnds(refs: seq<int>, h: nat, k: nat)
    requires 1 <= h <= k <= |refs|
    ensures var refs' := refs + Phase(refs, h, k); InPhase(refs, h, k, k) == Members(Latest(refs', h, |refs'|))
  {
    hide InPhase, Members;
    var refs' := refs + Phase(refs, h, k);
    var last, kept := Latest(refs', h, |refs'|), refs[|refs| - h..|refs| - 1];
    assert last == [|refs| + (k - h + 1) - 1] + kept by {
      assert |last| == h;
      forall i | 0 <= i < h ensures last[i] == ([|refs| + (k - h + 1) - 1] + kept)[i] {
        assert last[i] == refs'[|refs'| - h + i] == Phase(refs, h, k)[k - h + i];
      }
    }
    forall p ensures p in InPhase(refs, h, k, k) <==> p in Members(last) {
      InPhaseHas(refs, h, k, k, p);
      MemberOf(last, p);
    }
  }

  /** `h` frames can serve `n` phases with `k - h + 1` faults each, after `k` in the first. */
  lemma {:induction false} FewFrames(h: nat, k: nat, n: nat) returns (t: seq<set<int>>)
    requires 1 <= h <= k && n >= 1
    ensures IsSchedule(Phases(h, k, n), h, t)
    ensures t[|Phases(h, k, n)|] == Members(Latest(Phases(h, k, n), h, |Phases(h, k, n)|))
    ensures Cost(Phases(h, k, n), t) <= k + (n - 1) * (k - h + 1)
    decreases n
  {
    hide Phase, Members, Latest, Faults, Moves;
    if n == 1 {
      assert Phases(h, k, 1) == Phase([], h, k) by {
        assert Phases(h, k, 0) == [];
        assert [] + Phase([], h, k) == Phase([], h, k);
      }
      t := FirstPhase(h, k);
    } else {
      var s := FewFrames(h, k, n - 1);
      t := OneMorePhase(Phases(h, k, n - 1), h, k, s);
      OneMoreTime(n, k - h + 1);
    }
  }

  lemma OneMoreTime(n: nat, m: nat)
    requires n >= 2
    ensures (n - 2) * m + m == (n - 1) * m
  {
  }

  lemma OneMorePhase(refs: seq<int>, h: nat, k: nat, s: seq<set<int>>) returns (t: seq<set<int>>)
    requires 1 <= h <= k <= |refs| && IsSchedule(refs, h, s) && s[|refs|] == Members(Latest(refs, h, |refs|))
    ensures var refs' := refs + Phase(refs, h, k);
      && IsSchedule(refs', h, t) && t[|refs'|] == Members(Latest(refs', h, |refs'|))
      && Cost(refs', t) <= Cost(refs, s) + (k - h + 1)
  {
    hide InPhase, Phase, Members, Latest, Moves, Faults;
    InPhaseStart(refs, h, k);
    InPhaseEnds(refs, h, k);
    var n, refs' := |refs|, refs + Phase(refs, h, k);
    var more := seq(k + 1, j requires 0 <= j <= k => InPhase(refs, h, k, j));
    t := s[..n] + more;
    PhaseServed(refs, h, k, s, more);
    PhasePays(refs, h, k, s, more);
    Continues(s, more);
    hide IsSchedule;
    FaultsPrefix(refs, s, refs', t, n);
    FaultsSplit(refs', t, 0, n, n + k);
  }

  lemma Continues(s: seq<set<int>>, more: seq<set<int>>)
    requires s != [] && more != [] && more[0] == s[|s| - 1]
    ensures s <= s[..|s| - 1] + more
  {
    assert s == s[..|s| - 1] + [s[|s| - 1]];
  }

  lemma PhaseServed(refs: seq<int>, h: nat, k: nat, s: seq<set<int>>, more: seq<set<int>>)
    requires 1 <= h <= k <= |refs| && IsSchedule(refs, h, s) && s[|refs|] == InPhase(refs, h, k, 0)
    requires |more| == k + 1 && forall j | 0 <= j <= k :: more[j] == InPhase(refs, h, k, j)
    ensures IsSchedule(refs + Phase(refs, h, k), h, s[..|refs|] + more)
  {
    hide InPhase, Phase, Moves;
    var n, phase := |refs|, Phase(refs, h, k);
    var refs', t := refs + phase, s[..n] + more;
    forall j | 0 <= j < |refs'| ensures Moves(t[j], refs'[j], t[j + 1], h) {
      if j < n {
        assert Moves(s[j], refs[j], s[j + 1], h);
      } else {
        InPhaseMoves(refs, h, k, j - n);
        assert t[j] == more[j - n] && t[j + 1] == more[j - n + 1];
      }
    }
  }

  lemma PhasePays(refs: seq<int>, h: nat, k: nat, s: seq<set<int>>, more: seq<set<int>>)
    requires 1 <= h <= k <= |refs| == |s| - 1
    requires |more| == k + 1 && forall j | 0 <= j <= k :: more[j] == InPhase(refs, h, k, j)
    ensures Faults(refs + Phase(refs, h, k), s[..|refs|] + more, |refs|, |refs| + k) <= k - h + 1
  {
    hide InPhase, Phase, Moves, Faults;
    var n, m, phase := |refs|, k - h + 1, Phase(refs, h, k);
    var refs', t := refs + phase, s[..n] + more;
    forall j | n + m <= j < n + k ensures refs'[j] in t[j] {
      InPhaseMoves(refs, h, k, j - n);
      assert t[j] == more[j - n];
    }
    FaultsSplit(refs', t, n, n + m, n + k);
    FaultsAtMost(refs', t, n, n + m, 0);
    FaultsAtMost(refs', t, n + m, n + k, h - 1);
  }

  lemma InPhaseStart(refs: seq<int>, h: nat, k: nat)
    requires 1 <= h <= k <= |refs|
    ensures InPhase(refs, h, k, 0) == Members(Latest(refs, h, |refs|))
  {
  }

  // ----- the bounds are tight -----

  /** `f` faults are as many as the bound allows against `cost`, but for a constant. */
  predicate Reaches(k: nat, h: nat, f: nat, cost: nat)
    requires 1 <= h <= k
  {
    (k - h + 1) * f + k * (h - 1) >= k * cost
  }

  lemma PhasesReach(h: nat, k: nat, n: nat, cost: nat)
    requires 1 <= h <= k && n >= 1 && cost <= k + (n - 1) * (k - h + 1)
    ensures Reaches(k, h, n * k, cost)
  {
    var m := k - h + 1;
    assert (n - 1) * m == n * m - m;
    Scale(k, k, cost, n * m + (h - 1));
    assert k * (n * m + (h - 1)) == k * (n * m) + k * (h - 1);
    assert k * (n * m) == m * (n * k);
  }

  /**
    On any number of phases LRU and FIFO over `k` frames fault at every reference, and a schedule over
    `h` frames costs no more than their bound allows, but for the constant `h - 1`.
   */
  lemma BoundsAreTight(h: nat, k: nat, n: nat) returns (t: seq<set<int>>)
    requires 1 <= h <= k && n >= 1
    ensures var refs := Phases(h, k, n);
      && PageNumbers(refs) && |refs| == n * k && IsSchedule(refs, h, t)
      && (forall r | IsLruRun(refs, k, r) :: Counted(refs, r, |refs|) == n * k)
      && (forall r | IsFifoRun(refs, k, r) :: Counted(refs, r, |refs|) == n * k)
      && Reaches(k, h, n * k, Cost(refs, t))
  {
    hide Phases, Spread, Below, Faults, Members, Latest, Counted, Reaches, Serves, LruVictims, HandAt;
    var refs := Phases(h, k, n);
    PhasesSpread(h, k, n);
    t := FewFrames(h, k, n);
    PhasesReach(h, k, n, Cost(refs, t));
    forall r | IsLruRun(refs, k, r) ensures Counted(refs, r, |refs|) == n * k {
      LruFaultsAlways(refs, k, r);
    }
    forall r | IsFifoRun(refs, k, r) ensures Counted(refs, r, |refs|) == n * k {
      FifoFaultsAlways(refs, k, r);
    }
  }
}
