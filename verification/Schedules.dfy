/**
  Demand-paging schedules in general: which resident sets a memory of `k` frames may
  go through while it serves a reference string, how many faults that costs, and what
  can be said about the cost without knowing which policy picks the victims.
 */
module Schedules {

  /** One reference: the page is brought in, anything may be dropped, nothing else may be loaded. */
  ghost predicate Moves(before: set<int>, page: int, after: set<int>, k: nat) {
    && page in after
    && after <= before + {page}
    && |after| <= k
  }

  /** `s[i]` is the resident set before reference `i`; memory starts empty. */
  ghost predicate IsSchedule(refs: seq<int>, k: nat, s: seq<set<int>>) {
    && |s| == |refs| + 1
    && s[0] == {}
    && forall i | 0 <= i < |refs| :: Moves(s[i], refs[i], s[i + 1], k)
  }

  /** Number of references in `[a, b)` that find their page absent. */
  ghost function Faults(refs: seq<int>, s: seq<set<int>>, a: nat, b: nat): nat
    requires a <= b <= |refs| < |s|
    decreases b
  {
    if a == b then 0
    else Faults(refs, s, a, b - 1) + if refs[b - 1] in s[b - 1] then 0 else 1
  }

  /** All faults of a schedule. */
  ghost function Cost(refs: seq<int>, s: seq<set<int>>): nat
    requires |s| == |refs| + 1
  {
    Faults(refs, s, 0, |refs|)
  }

  /** The distinct pages referenced in `[a, b)`. */
  ghost function Pages(refs: seq<int>, a: nat, b: nat): set<int>
    requires a <= b <= |refs|
  {
    set i | a <= i < b :: refs[i]
  }

  lemma PagesGrow(refs: seq<int>, a: nat, b: nat)
    requires a < b <= |refs|
    ensures Pages(refs, a, b) == Pages(refs, a, b - 1) + {refs[b - 1]}
    ensures Pages(refs, a, b) == {refs[a]} + Pages(refs, a + 1, b)
  {
  }

  lemma NoPages(refs: seq<int>, a: nat)
    requires a <= |refs|
    ensures Pages(refs, a, a) == {}
  {
  }

  lemma {:induction false} FaultsSplit(refs: seq<int>, s: seq<set<int>>, a: nat, m: nat, b: nat)
    requires a <= m <= b <= |refs| < |s|
    ensures Faults(refs, s, a, b) == Faults(refs, s, a, m) + Faults(refs, s, m, b)
    decreases b
  {
    if m < b {
      FaultsSplit(refs, s, a, m, b - 1);
    }
  }

  lemma {:induction false} FaultsPrefix(refs: seq<int>, s: seq<set<int>>, refs': seq<int>, s': seq<set<int>>, n: nat)
    requires n <= |refs| < |s| && refs <= refs' && s <= s' && |refs'| < |s'|
    ensures Faults(refs', s', 0, n) == Faults(refs, s, 0, n)
    decreases n
  {
    if n > 0 {
      FaultsPrefix(refs, s, refs', s', n - 1);
    }
  }

  lemma {:induction false} FaultsAtMost(refs: seq<int>, s: seq<set<int>>, a: nat, b: nat, hits: nat)
    requires a <= b <= |refs| < |s| && hits <= b - a
    requires forall j | a <= j < a + hits :: refs[j] in s[j]
    ensures Faults(refs, s, a, b) <= b - a - hits
    decreases b
  {
    if a < b {
      FaultsAtMost(refs, s, a, b - 1, if hits < b - a then hits else hits - 1);
    }
  }

  /** A schedule over fewer frames is also one over more. */
  lemma MoreFrames(refs: seq<int>, k: nat, k': nat, s: seq<set<int>>)
    requires IsSchedule(refs, k, s) && k <= k'
    ensures IsSchedule(refs, k', s)
  {
    forall i | 0 <= i < |refs| ensures Moves(s[i], refs[i], s[i + 1], k') {
      assert Moves(s[i], refs[i], s[i + 1], k);
    }
  }

  /** A page can only be resident because it was at the start of the stretch or was referenced in it. */
  lemma {:induction false} ResidentsComeFromReferences(refs: seq<int>, k: nat, s: seq<set<int>>, a: nat, b: nat)
    requires IsSchedule(refs, k, s) && a <= b <= |refs|
    ensures s[b] <= s[a] + Pages(refs, a, b)
    decreases b
  {
    if a < b {
      ResidentsComeFromReferences(refs, k, s, a, b - 1);
      PagesGrow(refs, a, b);
      assert Moves(s[b - 1], refs[b - 1], s[b], k);
    }
  }

  /** Whatever the policy, every page of the stretch that is absent at its start costs a fault. */
  lemma {:induction false} AbsentPagesFault(refs: seq<int>, k: nat, s: seq<set<int>>, a: nat, b: nat)
    requires IsSchedule(refs, k, s) && a <= b <= |refs|
    ensures |Pages(refs, a, b) - s[a]| <= Faults(refs, s, a, b)
    decreases b
  {
    hide Pages, Moves;
    if a == b {
      NoPages(refs, a);
      assert Pages(refs, a, b) - s[a] == {};
    } else {
      AbsentPagesFault(refs, k, s, a, b - 1);
      ResidentsComeFromReferences(refs, k, s, a, b - 1);
      PagesGrow(refs, a, b);
      OneMorePage(Pages(refs, a, b - 1), refs[b - 1], s[a], s[b - 1]);
    }
  }

  /** Absent pages grow by at most one, and not at all when the page is resident. */
  lemma OneMorePage(w: set<int>, p: int, start: set<int>, now: set<int>)
    requires now <= start + w
    ensures |(w + {p}) - start| <= |w - start| + if p in now then 0 else 1
  {
    if p in start || p in w {
      assert (w + {p}) - start == w - start;
    } else {
      assert (w + {p}) - start == (w - start) + {p};
    }
  }

  /**
    The property shared by LRU and FIFO: a stretch with at most `k + 1` faults references
    at least as many distinct pages as it has faults.
   */
  ghost predicate Conservative(refs: seq<int>, k: nat, s: seq<set<int>>)
    requires |s| == |refs| + 1
  {
    forall a: nat, b: nat | a <= b <= |refs| && Faults(refs, s, a, b) <= k + 1 ::
      Faults(refs, s, a, b) <= |Pages(refs, a, b)|
  }

  /** A stretch that references one page only faults at most once. */
  lemma {:induction false} OnePageFaultsOnce(refs: seq<int>, k: nat, s: seq<set<int>>, a: nat, b: nat)
    requires IsSchedule(refs, k, s) && a < b <= |refs|
    requires forall i | a <= i < b :: refs[i] == refs[a]
    ensures Faults(refs, s, a, b) <= 1
    decreases b
  {
    if a + 1 < b {
      OnePageFaultsOnce(refs, k, s, a, b - 1);
      assert Moves(s[b - 2], refs[b - 2], s[b - 1], k);
    } else {
      assert Faults(refs, s, a, a) == 0;
    }
  }

  /** Up to two faults always reference as many distinct pages. */
  lemma AlwaysConservativeForOne(refs: seq<int>, k: nat, s: seq<set<int>>)
    requires IsSchedule(refs, k, s)
    ensures Conservative(refs, 1, s)
  {
    forall a: nat, b: nat | a <= b <= |refs| && Faults(refs, s, a, b) <= 2
      ensures Faults(refs, s, a, b) <= |Pages(refs, a, b)|
    {
      if a < b {
        var w := Pages(refs, a, b);
        assert refs[a] in w;
        if w == {refs[a]} {
          forall i | a <= i < b ensures refs[i] == refs[a] {
            assert refs[i] in w;
          }
          OnePageFaultsOnce(refs, k, s, a, b);
        } else {
          var q :| q in w && q != refs[a];
          Subset({q, refs[a]}, w);
        }
      }
    }
  }

  lemma WithPage(w: set<int>, p: int)
    ensures |w + {p}| == |w| + if p in w then 0 else 1
  {
    assert p in w ==> w + {p} == w;
  }

  /** Where what a stretch has used stays resident, each of its pages faults at most once. */
  lemma {:induction false} OneFaultAPage(refs: seq<int>, s: seq<set<int>>, a: nat, b: nat)
    requires a <= b <= |refs| < |s|
    requires forall i | a <= i < b && refs[i] in Pages(refs, a, i) :: refs[i] in s[i]
    ensures Faults(refs, s, a, b) <= |Pages(refs, a, b)|
    decreases b
  {
    hide Pages;
    if a < b {
      OneFaultAPage(refs, s, a, b - 1);
      PagesGrow(refs, a, b);
      WithPage(Pages(refs, a, b - 1), refs[b - 1]);
    }
  }

  /** The reference that makes the `m`-th fault. */
  lemma {:induction false} FaultNumber(refs: seq<int>, s: seq<set<int>>, m: nat, b: nat) returns (a: nat)
    requires b <= |refs| < |s| && 1 <= m <= Faults(refs, s, 0, b)
    ensures 1 <= a <= b && Faults(refs, s, 0, a) == m && refs[a - 1] !in s[a - 1]
    decreases b
  {
    if Faults(refs, s, 0, b - 1) >= m {
      a := FaultNumber(refs, s, m, b - 1);
    } else {
      a := b;
    }
  }

  /**
    One phase: between a fault of the conservative schedule and its `k`-th next fault, every
    schedule over `h` frames faults at least `k - h + 1` times.
   */
  lemma PhaseCost(refs: seq<int>, k: nat, s: seq<set<int>>, h: nat, t: seq<set<int>>, a: nat, b: nat)
    requires |s| == |refs| + 1 && Conservative(refs, k, s)
    requires IsSchedule(refs, h, t)
    requires 1 <= a <= b <= |refs| && Faults(refs, s, a - 1, b) == k + 1
    ensures k + 1 <= Faults(refs, t, a, b) + h
  {
    var q, w := refs[a - 1], Pages(refs, a - 1, b);
    assert k + 1 <= |w|;
    PagesGrow(refs, a - 1, b);
    assert Moves(t[a - 1], q, t[a], h);
    assert w - t[a] == Pages(refs, a, b) - t[a];
    assert w <= (w - t[a]) + t[a];
    Subset(w, (w - t[a]) + t[a]);
    AbsentPagesFault(refs, h, t, a, b);
  }

  lemma {:induction false} Subset<T>(a: set<T>, b: set<T>)
    requires a <= b
    ensures |a| <= |b|
  {
    assert b == a + (b - a);
  }

  /**
    Competitiveness: a conservative schedule over `k` frames costs at most `k / (k - h + 1)`
    times what any schedule over `h <= k` frames costs, with no additive constant.
   */
  lemma {:induction false} ConservativeIsCompetitive(refs: seq<int>, k: nat, s: seq<set<int>>, h: nat, t: seq<set<int>>, b: nat)
    requires 1 <= h <= k && b <= |refs|
    requires |s| == |refs| + 1 && Conservative(refs, k, s)
    requires IsSchedule(refs, h, t)
    ensures (k - h + 1) * Faults(refs, s, 0, b) <= k * Faults(refs, t, 0, b)
    decreases b
  {
    var f := Faults(refs, s, 0, b);
    if f <= k {
      AbsentPagesFault(refs, h, t, 0, b);
      assert Pages(refs, 0, b) - t[0] == Pages(refs, 0, b);
      Scale(k - h + 1, k, f, Faults(refs, t, 0, b));
    } else {
      var a := FaultNumber(refs, s, f - k, b);
      FaultsSplit(refs, s, 0, a, b);
      FaultsSplit(refs, s, a - 1, a, b);
      assert Faults(refs, s, a - 1, a) == 1 + Faults(refs, s, a - 1, a - 1);
      assert Faults(refs, s, a, b) == k;
      if a == b {
        assert false;
      }
      ConservativeIsCompetitive(refs, k, s, h, t, a);
      PhaseCost(refs, k, s, h, t, a, b);
      FaultsSplit(refs, t, 0, a, b);
      AddPhase(k, h, f - k, Faults(refs, t, 0, a), Faults(refs, t, a, b));
    }
  }

  lemma Scale(m: nat, k: nat, x: nat, y: nat)
    requires m <= k && x <= y
    ensures m * x <= k * y
  {
    assert m * x <= k * x;
    assert k * x <= k * y;
  }

  lemma AddPhase(k: nat, h: nat, f: nat, x: nat, y: nat)
    requires 1 <= h <= k && (k - h + 1) * f <= k * x && k - h + 1 <= y
    ensures (k - h + 1) * (f + k) <= k * (x + y)
  {
    var m := k - h + 1;
    assert m * (f + k) == m * f + m * k;
    assert k * (x + y) == k * x + k * y;
    Scale(k, k, m, y);
  }

  // ----- the same from stretches of few pages -----

  /** A stretch of at most `k` distinct pages faults at most `c` times for each of them. */
  ghost predicate Narrow(refs: seq<int>, k: nat, c: nat, s: seq<set<int>>)
    requires |s| == |refs| + 1
  {
    forall a: nat, b: nat | a <= b <= |refs| && |Pages(refs, a, b)| <= k ::
      Faults(refs, s, a, b) <= c * |Pages(refs, a, b)|
  }

  /** The longest stretch of at most `k` distinct pages that ends at `b`. */
  lemma {:induction false} LongestNarrow(refs: seq<int>, k: nat, a: nat, b: nat) returns (start: nat)
    requires a < b <= |refs| && |Pages(refs, a, b)| <= k
    ensures start <= a && |Pages(refs, start, b)| <= k
    ensures start > 0 ==> |Pages(refs, start - 1, b)| == k + 1
    decreases a
  {
    hide Pages;
    if a == 0 {
      start := 0;
    } else {
      PagesGrow(refs, a - 1, b);
      WithPage(Pages(refs, a, b), refs[a - 1]);
      assert {refs[a - 1]} + Pages(refs, a, b) == Pages(refs, a, b) + {refs[a - 1]};
      if |Pages(refs, a - 1, b)| <= k {
        start := LongestNarrow(refs, k, a - 1, b);
      } else {
        start := a;
      }
    }
  }

  /** In the stretch behind a reference that makes `k + 1` pages of it, `h` frames cannot hold enough. */
  lemma WideStretchCost(refs: seq<int>, k: nat, h: nat, t: seq<set<int>>, a: nat, b: nat)
    requires IsSchedule(refs, h, t) && 1 <= a < b <= |refs| && |Pages(refs, a - 1, b)| == k + 1
    ensures k + 1 <= Faults(refs, t, a, b) + h
  {
    hide Pages, Faults;
    var q, w := refs[a - 1], Pages(refs, a - 1, b);
    PagesGrow(refs, a - 1, b);
    assert Moves(t[a - 1], q, t[a], h);
    assert w - t[a] == Pages(refs, a, b) - t[a];
    Subset(w, (w - t[a]) + t[a]);
    AbsentPagesFault(refs, h, t, a, b);
  }

  lemma StretchAlone(refs: seq<int>, k: nat, c: nat, s: seq<set<int>>, h: nat, t: seq<set<int>>, b: nat)
    requires 1 <= h <= k && b <= |refs| == |s| - 1 && Narrow(refs, k, c, s) && IsSchedule(refs, h, t)
    requires |Pages(refs, 0, b)| <= k
    ensures (k - h + 1) * Faults(refs, s, 0, b) <= (c * k) * Faults(refs, t, 0, b)
  {
    AbsentPagesFault(refs, h, t, 0, b);
    hide Pages, Faults, Moves;
    assert Pages(refs, 0, b) - t[0] == Pages(refs, 0, b);
    FirstStretch(k - h + 1, c, k, |Pages(refs, 0, b)|, Faults(refs, s, 0, b), Faults(refs, t, 0, b));
  }

  lemma StretchMore(refs: seq<int>, k: nat, c: nat, s: seq<set<int>>, h: nat, t: seq<set<int>>, a: nat, b: nat)
    requires 1 <= h <= k && 1 <= a < b <= |refs| == |s| - 1 && Narrow(refs, k, c, s) && IsSchedule(refs, h, t)
    requires |Pages(refs, a, b)| <= k && |Pages(refs, a - 1, b)| == k + 1
    requires (k - h + 1) * Faults(refs, s, 0, a) <= (c * k) * Faults(refs, t, 0, a)
    ensures (k - h + 1) * Faults(refs, s, 0, b) <= (c * k) * Faults(refs, t, 0, b)
  {
    hide Pages, Faults, Moves;
    WideStretchCost(refs, k, h, t, a, b);
    FaultsSplit(refs, s, 0, a, b);
    FaultsSplit(refs, t, 0, a, b);
    assert Faults(refs, s, a, b) <= c * |Pages(refs, a, b)|;
    NextStretch(k - h + 1, c, k, |Pages(refs, a, b)|,
      Faults(refs, s, 0, a), Faults(refs, s, a, b), Faults(refs, t, 0, a), Faults(refs, t, a, b));
  }

  lemma OnePageStretch(refs: seq<int>, b: nat)
    requires 0 < b <= |refs|
    ensures |Pages(refs, b - 1, b)| == 1
  {
    NoPages(refs, b);
    PagesGrow(refs, b - 1, b);
    assert {refs[b - 1]} + Pages(refs, b, b) == {refs[b - 1]};
  }

  /** Cut from its end into longest narrow stretches, a run costs at most `c * k / (k - h + 1)` times any other. */
  lemma {:induction false} NarrowIsCompetitive(refs: seq<int>, k: nat, c: nat, s: seq<set<int>>, h: nat, t: seq<set<int>>, b: nat)
    requires 1 <= h <= k && b <= |refs|
    requires |s| == |refs| + 1 && Narrow(refs, k, c, s)
    requires IsSchedule(refs, h, t)
    ensures (k - h + 1) * Faults(refs, s, 0, b) <= (c * k) * Faults(refs, t, 0, b)
    decreases b
  {
    if b == 0 {
      assert Faults(refs, s, 0, 0) == 0;
    } else {
      hide Pages, Faults, Moves, Narrow;
      OnePageStretch(refs, b);
      var a := LongestNarrow(refs, k, b - 1, b);
      if a == 0 {
        StretchAlone(refs, k, c, s, h, t, b);
      } else {
        NarrowIsCompetitive(refs, k, c, s, h, t, a);
        StretchMore(refs, k, c, s, h, t, a, b);
      }
    }
  }

  lemma FirstStretch(m: nat, c: nat, k: nat, n: nat, x: nat, y: nat)
    requires m <= k && x <= c * n && n <= y
    ensures m * x <= (c * k) * y
  {
    Scale(c, c, n, y);
    Scale(m, k, x, c * y);
    assert k * (c * y) == (c * k) * y;
  }

  lemma NextStretch(m: nat, c: nat, k: nat, n: nat, x: nat, x': nat, y: nat, y': nat)
    requires m * x <= (c * k) * y && x' <= c * n && n <= k && m <= y'
    ensures m * (x + x') <= (c * k) * (y + y')
  {
    Scale(c, c, n, k);
    Scale(m, m, x', c * k);
    Scale(c * k, c * k, m, y');
    assert m * (x + x') == m * x + m * x';
    assert (c * k) * (y + y') == (c * k) * y + (c * k) * y';
    assert m * (c * k) == (c * k) * m;
  }
}
