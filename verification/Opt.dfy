/** The OPT method: give up the frame whose page is used again last, and why nothing beats it. */
module Opt {
  import opened Basics
  import opened Schedules
  import opened Frames

  /** `v` is the first among the frames whose pages are next used, from reference `i` on, farthest in the future. */
  ghost predicate FirstFarthest(frames: seq<int>, refs: seq<int>, i: nat, v: nat)
    requires i <= |refs|
  {
    && v < |frames|
    && (forall j | 0 <= j < |frames| :: FirstFrom(refs, frames[j], i) <= FirstFrom(refs, frames[v], i))
    && (forall j | 0 <= j < v :: FirstFrom(refs, frames[j], i) < FirstFrom(refs, frames[v], i))
  }

  ghost predicate OptVictims(refs: seq<int>, r: Run, n: nat)
    requires n <= |refs| && n <= |r.frames| && n <= |r.victims|
  {
    forall i | 0 <= i < n ::
      Scan(r.frames[i], refs[i], 0).Miss? ==> FirstFarthest(r.frames[i], refs, i + 1, r.victims[i])
  }

  /** A run of OPT over `k` frames. */
  ghost predicate IsOptRun(refs: seq<int>, k: nat, r: Run) {
    IsRun(refs, k, r) && OptVictims(refs, r, |refs|)
  }

  // ----- optimality -----

  /**
    OPT against any other schedule `t`, before reference `i`: within every horizon `h`, what
    `t` holds of the pages needed until `h` and OPT does not has already been paid for.
   */
  ghost predicate Ahead(refs: seq<int>, x: set<int>, cost: nat, y: set<int>, cost': nat, i: nat)
    requires i <= |refs|
  {
    forall h: nat | i <= h <= |refs| ::
      cost + |y * Pages(refs, i, h)| <= cost' + |x * Pages(refs, i, h)|
  }

  /** Pages of `z` other than `p` that are needed in `w`. */
  ghost function Rest(z: set<int>, p: int, w: set<int>): nat {
    |(z - {p}) * w|
  }

  lemma CountWith(z: set<int>, p: int, w: set<int>)
    ensures |z * (w + {p})| == Rest(z, p, w - {p}) + One(p in z)
    ensures |z * w| == Rest(z, p, w - {p}) + One(p in z && p in w)
  {
    var rest := (z - {p}) * (w - {p});
    assert z * (w + {p}) == if p in z then rest + {p} else rest;
    assert z * w == if p in z && p in w then rest + {p} else rest;
  }

  /** What one move keeps of the pages needed in `w`, apart from `p` itself. */
  lemma MoveLoses(y: set<int>, p: int, y': set<int>, k: nat, w: set<int>)
    requires Moves(y, p, y', k)
    ensures Rest(y', p, w) <= Rest(y, p, w)
    ensures Rest(y', p, w) + 1 <= k
  {
    Subset((y' - {p}) * w, (y - {p}) * w);
    Subset((y' - {p}) * w, y' - {p});
  }

  lemma VictimCosts(x: set<int>, v: int, p: int, w: set<int>)
    requires p !in x && v in x && p !in w
    ensures v !in w ==> Rest(x - {v} + {p}, p, w) == Rest(x, p, w)
    ensures v in w && x <= w ==> Rest(x - {v} + {p}, p, w) == |x| - 1
  {
    assert (x - {v} + {p}) - {p} == x - {v};
    assert x - {p} == x;
    if v in w {
      if x <= w {
        assert (x - {v}) * w == x - {v};
      }
    } else {
      assert (x - {v}) * w == x * w;
    }
  }

  /**
    The exchange step at one horizon. `w` are the pages needed after this reference within the
    horizon. On a hit or a fill OPT moves from `x` to `x + {p}`.
   */
  lemma HitOrFillAt(x: set<int>, cost: nat, y: set<int>, y': set<int>, cost': nat, p: int, w: set<int>, k: nat)
    requires Moves(y, p, y', k)
    requires cost + |y * (w + {p})| <= cost' + |x * (w + {p})|
    ensures cost + One(p !in x) + |y' * w| <= cost' + One(p !in y) + |(x + {p}) * w|
  {
    CountWith(x, p, w);
    CountWith(y, p, w);
    CountWith(x + {p}, p, w);
    CountWith(y', p, w);
    MoveLoses(y, p, y', k, w - {p});
    LoadKeepsRest(x, p, w - {p});
  }

  lemma LoadKeepsRest(x: set<int>, p: int, w: set<int>)
    ensures Rest(x + {p}, p, w) == Rest(x, p, w)
  {
    assert (x + {p}) - {p} == x - {p};
  }

  /** On a miss OPT drops a `v` that is needed only if all of `x` is. */
  lemma ReplaceAt(x: set<int>, v: int, cost: nat, y: set<int>, y': set<int>, cost': nat, p: int, w: set<int>, k: nat)
    requires Moves(y, p, y', k)
    requires cost + |y * (w + {p})| <= cost' + |x * (w + {p})|
    requires cost + One(p in y) <= cost'
    requires p !in x && |x| == k && v in x && (v in w ==> x <= w)
    ensures cost + 1 + |y' * w| <= cost' + One(p !in y) + |(x - {v} + {p}) * w|
  {
    var w' := w - {p};
    CountWith(x, p, w);
    CountWith(y, p, w);
    CountWith(x - {v} + {p}, p, w);
    CountWith(y', p, w);
    MoveLoses(y, p, y', k, w');
    assert v in w' ==> x <= w';
    VictimCosts(x, v, p, w');
  }

  /** OPT's victim is needed within a horizon only if all its resident pages are. */
  lemma FarthestNeededLast(frames: seq<int>, refs: seq<int>, i: nat, v: nat, h: nat)
    requires i <= h <= |refs| && FirstFarthest(frames, refs, i, v)
    ensures frames[v] in Pages(refs, i, h) ==> Resident(frames) <= Pages(refs, i, h)
  {
    if frames[v] in Pages(refs, i, h) {
      assert FirstFrom(refs, frames[v], i) < h;
      forall j | 0 <= j < |frames| ensures frames[j] in Pages(refs, i, h) {
        var n := FirstFrom(refs, frames[j], i);
        assert n < h && refs[n] == frames[j];
      }
    }
  }

  /** One OPT step on resident sets. */
  lemma OptMove(refs: seq<int>, k: nat, r: Run, i: nat)
    requires IsOptRun(refs, k, r) && PageNumbers(refs) && i < |refs|
    ensures var x, p, x', j := Resident(r.frames[i]), refs[i], Resident(r.frames[i + 1]), r.victims[i];
      || x' == x + {p}
      || (p !in x && |x| == k && FirstFarthest(r.frames[i], refs, i + 1, j)
          && r.frames[i][j] in x && x' == x - {r.frames[i][j]} + {p})
  {
    var before, p, j := r.frames[i], refs[i], r.victims[i];
    assert Serves(before, p, j, r.frames[i + 1], k);
    var m := RunPacked(refs, k, r, i);
    var _ := ServePacked(before, m, p, j);
    if Scan(before, p, 0).Miss? {
      PackedCount(before, m);
      assert before[j] in Resident(before);
    }
  }

  lemma OptStepAt(refs: seq<int>, k: nat, r: Run, t: seq<set<int>>, i: nat, cost: nat, cost': nat, h: nat)
    requires IsOptRun(refs, k, r) && PageNumbers(refs) && IsSchedule(refs, k, t) && i < h <= |refs|
    requires Ahead(refs, Resident(r.frames[i]), cost, t[i], cost', i)
    ensures cost + One(refs[i] !in Resident(r.frames[i])) + |t[i + 1] * Pages(refs, i + 1, h)|
         <= cost' + One(refs[i] !in t[i]) + |Resident(r.frames[i + 1]) * Pages(refs, i + 1, h)|
  {
    hide Pages, Resident, Scan, Serve, OptVictims;
    var x, p, j, w := Resident(r.frames[i]), refs[i], r.victims[i], Pages(refs, i + 1, h);
    assert Moves(t[i], p, t[i + 1], k);
    assert Serves(r.frames[i], p, j, r.frames[i + 1], k);
    PagesGrow(refs, i, h);
    assert Pages(refs, i, h) == w + {p};
    assert cost + |t[i] * (w + {p})| <= cost' + |x * (w + {p})|;
    OptMove(refs, k, r, i);
    if Resident(r.frames[i + 1]) == x + {p} {
      HitOrFillAt(x, cost, t[i], t[i + 1], cost', p, w, k);
    } else {
      FarthestNeededLast(r.frames[i], refs, i + 1, j, h);
      PaidForNow(refs, x, cost, t[i], cost', i);
      ReplaceAt(x, r.frames[i][j], cost, t[i], t[i + 1], cost', p, w, k);
    }
  }

  /** Looking no further than the current reference. */
  lemma PaidForNow(refs: seq<int>, x: set<int>, cost: nat, y: set<int>, cost': nat, i: nat)
    requires i < |refs| && Ahead(refs, x, cost, y, cost', i) && refs[i] !in x
    ensures cost + One(refs[i] in y) <= cost'
  {
    var now := Pages(refs, i, i + 1);
    assert now == {refs[i]};
    assert x * now == {};
    assert y * now == if refs[i] in y then {refs[i]} else {};
  }

  lemma OptStepKeepsAhead(refs: seq<int>, k: nat, r: Run, t: seq<set<int>>, i: nat, cost: nat, cost': nat)
    requires IsOptRun(refs, k, r) && PageNumbers(refs) && IsSchedule(refs, k, t) && i < |refs|
    requires Ahead(refs, Resident(r.frames[i]), cost, t[i], cost', i)
    ensures Ahead(refs, Resident(r.frames[i + 1]), cost + One(refs[i] !in Resident(r.frames[i])),
                  t[i + 1], cost' + One(refs[i] !in t[i]), i + 1)
  {
    forall h: nat {:trigger Pages(refs, i + 1, h)} | i + 1 <= h <= |refs|
      ensures cost + One(refs[i] !in Resident(r.frames[i])) + |t[i + 1] * Pages(refs, i + 1, h)|
           <= cost' + One(refs[i] !in t[i]) + |Resident(r.frames[i + 1]) * Pages(refs, i + 1, h)|
    {
      OptStepAt(refs, k, r, t, i, cost, cost', h);
    }
  }

  lemma AheadAtStart(refs: seq<int>, k: nat)
    ensures Ahead(refs, Resident(Empty(k)), 0, {}, 0, 0)
  {
    assert Resident(Empty(k)) == {};
  }

  lemma {:induction false} OptStaysAhead(refs: seq<int>, k: nat, r: Run, t: seq<set<int>>, i: nat)
    requires IsOptRun(refs, k, r) && PageNumbers(refs) && IsSchedule(refs, k, t) && i <= |refs|
    ensures Ahead(refs, Resident(r.frames[i]), Faults(refs, Residents(r), 0, i), t[i], Faults(refs, t, 0, i), i)
    decreases i
  {
    hide Ahead, Resident, OptVictims, Serves, Moves;
    if i == 0 {
      AheadAtStart(refs, k);
    } else {
      OptStaysAhead(refs, k, r, t, i - 1);
      OptStepKeepsAhead(refs, k, r, t, i - 1, Faults(refs, Residents(r), 0, i - 1), Faults(refs, t, 0, i - 1));
    }
  }

  /** OPT is optimal among all demand-paging schedules over the same number of frames. */
  lemma OptIsOptimal(refs: seq<int>, k: nat, r: Run, t: seq<set<int>>)
    requires IsOptRun(refs, k, r) && PageNumbers(refs) && IsSchedule(refs, k, t)
    ensures Counted(refs, r, |refs|) <= Cost(refs, t)
  {
    var n := |refs|;
    OptStaysAhead(refs, k, r, t, n);
    CountedIsCost(refs, k, r, n);
    assert Pages(refs, n, n) == {};
  }

  lemma OptBeatsAll(refs: seq<int>, k: nat, r: Run)
    requires IsOptRun(refs, k, r) && PageNumbers(refs)
    ensures forall t | IsSchedule(refs, k, t) :: Counted(refs, r, |refs|) <= Cost(refs, t)
  {
    forall t | IsSchedule(refs, k, t) ensures Counted(refs, r, |refs|) <= Cost(refs, t) {
      OptIsOptimal(refs, k, r, t);
    }
  }

  /** ... hence at most as many faults as any run of the simulator, with as many frames or fewer. */
  lemma OptBeatsEveryRun(refs: seq<int>, k: nat, r: Run, k': nat, r': Run)
    requires IsOptRun(refs, k, r) && IsRun(refs, k', r') && PageNumbers(refs) && k' <= k
    ensures Counted(refs, r, |refs|) <= Counted(refs, r', |refs|)
  {
    RunIsSchedule(refs, k', r');
    MoreFrames(refs, k', k, Residents(r'));
    OptIsOptimal(refs, k, r, Residents(r'));
    CountedIsCost(refs, k', r', |refs|);
  }

  // ----- negative page numbers -----

  ghost predicate Over(refs: seq<int>, pages: iset<int>) {
    forall i | 0 <= i < |refs| :: refs[i] in pages
  }

  /** OPT is optimal on every string over these pages, whatever the number of frames. */
  ghost predicate OptimalOver(pages: iset<int>) {
    forall refs, k, r, t | Over(refs, pages) && IsOptRun(refs, k, r) && IsSchedule(refs, k, t) ::
      Counted(refs, r, |refs|) <= Cost(refs, t)
  }

  /** A page below -1 together with any other page, or page -1 together with two ordinary pages. */
  ghost predicate Spoils(pages: iset<int>) {
    || (exists p, q :: p in pages && q in pages && p != q && p < -1)
    || (-1 in pages && exists p, q :: p in pages && q in pages && 0 <= p < q)
  }

  lemma ScanTwo(x: int, y: int, page: int)
    ensures Scan([x, y], page, 0)
         == if x == page then Hit(0) else if x < 0 then Fill(0) else if y == page then Hit(1) else if y < 0 then Fill(1) else Miss
  {
    assert Scan([x, y], page, 2) == Miss;
    assert Scan([x, y], page, 1) == if y == page then Hit(1) else if y < 0 then Fill(1) else Miss;
  }

  /** Any negative page is overwritten like a free frame: with two ordinary pages, four faults where three would do. */
  lemma NegativePageSpoils(p: int, a: int, b: int, r: Run)
    requires p < 0 && a >= 0 && b >= 0 && a != b && IsOptRun([a, b, p, b], 2, r)
    ensures Counted([a, b, p, b], r, 4) == 4
    ensures var t := [{}, {a}, {a, b}, {p, b}, {p, b}];
      IsSchedule([a, b, p, b], 2, t) && Cost([a, b, p, b], t) == 3
  {
    hide FirstFarthest, Cost, Faults, IsSchedule, Scan;
    var refs := [a, b, p, b];
    NegativeCost(p, a, b);
    assert Serves(r.frames[0], refs[0], r.victims[0], r.frames[1], 2);
    assert Serves(r.frames[1], refs[1], r.victims[1], r.frames[2], 2);
    assert Serves(r.frames[2], refs[2], r.victims[2], r.frames[3], 2);
    assert r.frames[0] == [-1, -1];
    ScanTwo(-1, -1, a);
    assert r.frames[1] == [a, -1];
    ScanTwo(a, -1, b);
    assert r.frames[2] == [a, b];
    ScanTwo(a, b, p);
    NegativeVictim(p, a, b, r.victims[2]);
    assert r.frames[3] == [p, b];
    ScanTwo(p, b, b);
    CountedUpTo4(refs, r);
  }

  lemma CountedUpTo4(refs: seq<int>, r: Run)
    requires |refs| == 4 && |r.frames| == 5
    ensures Counted(refs, r, 4)
         == One(!Scan(r.frames[0], refs[0], 0).Hit?) + One(!Scan(r.frames[1], refs[1], 0).Hit?)
          + One(!Scan(r.frames[2], refs[2], 0).Hit?) + One(!Scan(r.frames[3], refs[3], 0).Hit?)
  {
    hide Scan;
    assert Counted(refs, r, 1) == One(!Scan(r.frames[0], refs[0], 0).Hit?);
    assert Counted(refs, r, 2) == Counted(refs, r, 1) + One(!Scan(r.frames[1], refs[1], 0).Hit?);
  }

  lemma NegativeCost(p: int, a: int, b: int)
    requires p < 0 && a >= 0 && b >= 0 && a != b
    ensures var refs: seq<int>, t: seq<set<int>> := [a, b, p, b], [{}, {a}, {a, b}, {p, b}, {p, b}];
      IsSchedule(refs, 2, t) && Cost(refs, t) == 3
  {
    var refs: seq<int>, t: seq<set<int>> := [a, b, p, b], [{}, {a}, {a, b}, {p, b}, {p, b}];
    assert |{a, b}| == |{p, b}| == 2;
    assert Faults(refs, t, 0, 1) == 1;
    assert Faults(refs, t, 0, 2) == 2;
    assert Faults(refs, t, 0, 3) == 3;
  }

  lemma NegativeVictim(p: int, a: int, b: int, v: nat)
    requires p < 0 && a >= 0 && b >= 0 && a != b
    ensures FirstFarthest([a, b], [a, b, p, b], 3, v) <==> v == 0
  {
    var refs, frames := [a, b, p, b], [a, b];
    assert FirstFrom(refs, frames[1], 3) == 3;
    assert FirstFrom(refs, frames[0], 4) == 4;
    assert FirstFrom(refs, frames[0], 3) == 4;
  }

  lemma NegativeRun(p: int, a: int, b: int) returns (r: Run)
    requires p < 0 && a >= 0 && b >= 0 && a != b
    ensures IsOptRun([a, b, p, b], 2, r)
  {
    hide FirstFarthest, Scan;
    r := Run([[-1, -1], [a, -1], [a, b], [p, b], [b, b]], [0, 0, 0, 0]);
    ScanTwo(-1, -1, a);
    ScanTwo(a, -1, b);
    ScanTwo(a, b, p);
    ScanTwo(p, b, b);
    NegativeVictim(p, a, b, 0);
    assert Empty(2) == [-1, -1];
    assert [-1, -1][0 := a] == [a, -1] && [a, -1][1 := b] == [a, b] && [a, b][0 := p] == [p, b] && [p, b][0 := b] == [b, b];
  }

  /** A page below -1 does not even need them: three faults where two would do. */
  lemma LowPageSpoils(p: int, q: int, r: Run)
    requires p < -1 && q != p && IsOptRun([p, q, p], 2, r)
    ensures Counted([p, q, p], r, 3) == 3
    ensures var t := [{}, {p}, {p, q}, {p, q}];
      IsSchedule([p, q, p], 2, t) && Cost([p, q, p], t) == 2
  {
    hide Scan, OptVictims;
    var refs := [p, q, p];
    LowCost(p, q);
    assert Serves(r.frames[0], refs[0], r.victims[0], r.frames[1], 2);
    assert Serves(r.frames[1], refs[1], r.victims[1], r.frames[2], 2);
    assert r.frames[0] == [-1, -1];
    ScanTwo(-1, -1, p);
    assert r.frames[1] == [p, -1];
    ScanTwo(p, -1, q);
    assert r.frames[2] == [q, -1];
    ScanTwo(q, -1, p);
    assert Counted(refs, r, 1) == 1;
  }

  lemma LowCost(p: int, q: int)
    requires p != q
    ensures var refs: seq<int>, t: seq<set<int>> := [p, q, p], [{}, {p}, {p, q}, {p, q}];
      IsSchedule(refs, 2, t) && Cost(refs, t) == 2
  {
    var refs: seq<int>, t: seq<set<int>> := [p, q, p], [{}, {p}, {p, q}, {p, q}];
    assert |{p, q}| == 2;
    assert Faults(refs, t, 0, 1) == 1;
    assert Faults(refs, t, 0, 2) == 2;
  }

  lemma LowRun(p: int, q: int) returns (r: Run)
    requires p < -1 && q != p
    ensures IsOptRun([p, q, p], 2, r)
  {
    hide FirstFarthest, Scan;
    var last := if q < 0 then [p, -1] else [q, p];
    r := Run([[-1, -1], [p, -1], [q, -1], last], [0, 0, 0]);
    ScanTwo(-1, -1, p);
    ScanTwo(p, -1, q);
    ScanTwo(q, -1, p);
    assert Empty(2) == [-1, -1];
    assert [-1, -1][0 := p] == [p, -1] && [p, -1][0 := q] == [q, -1];
    assert [q, -1][0 := p] == [p, -1] && [q, -1][1 := p] == [q, p];
  }

  /** With one frame a fault is a change of page. */
  lemma {:induction false} OneFrame(refs: seq<int>, r: Run, t: seq<set<int>>, n: nat)
    requires IsRun(refs, 1, r) && IsSchedule(refs, 1, t) && n <= |refs|
    ensures |r.frames[n]| == 1 && (n > 0 ==> r.frames[n][0] == refs[n - 1])
    ensures Counted(refs, r, n) <= Faults(refs, t, 0, n)
    decreases n
  {
    if n > 0 {
      OneFrame(refs, r, t, n - 1);
      assert Serves(r.frames[n - 1], refs[n - 1], r.victims[n - 1], r.frames[n], 1);
      if n > 1 {
        assert Moves(t[n - 2], refs[n - 2], t[n - 1], 1);
        SingletonOf(t[n - 1], refs[n - 2]);
      }
    }
  }

  lemma SingletonOf(x: set<int>, p: int)
    requires p in x && |x| <= 1
    ensures x == {p}
  {
    forall q | q in x ensures q == p {
      Subset({p, q}, x);
    }
  }

  /** One page only, or page -1 and one ordinary page on several frames, never fault twice. */
  lemma {:induction false} FewPages(refs: seq<int>, k: nat, r: Run, n: nat, p: int)
    requires IsRun(refs, k, r) && n <= |refs| && 1 <= k
    requires || (p < -1 && forall i | 0 <= i < |refs| :: refs[i] == p)
             || (p >= 0 && k >= 2 && forall i | 0 <= i < |refs| :: refs[i] == p || refs[i] == -1)
    ensures (r.frames[n] == Empty(k) && Counted(refs, r, n) == 0)
         || (r.frames[n] == Empty(k)[0 := p] && Counted(refs, r, n) == 1)
    decreases n
  {
    if n > 0 {
      FewPages(refs, k, r, n - 1, p);
      assert Serves(r.frames[n - 1], refs[n - 1], r.victims[n - 1], r.frames[n], k);
      hide Serves, IsRun;
      if p >= 0 && refs[n - 1] == -1 {
        assert Scan(r.frames[n - 1], -1, 0) == if r.frames[n - 1] == Empty(k) then Hit(0) else Hit(1);
      }
    }
  }

  lemma {:induction false} FirstReferenceFaults(refs: seq<int>, k: nat, t: seq<set<int>>, n: nat)
    requires IsSchedule(refs, k, t) && 0 < n <= |refs|
    ensures Faults(refs, t, 0, n) >= 1
    decreases n
  {
    if n > 1 {
      FirstReferenceFaults(refs, k, t, n - 1);
    } else {
      assert Faults(refs, t, 0, 0) == 0;
    }
  }

  /** Where nothing spoils it, OPT is optimal. */
  lemma OptimalUnlessSpoilt(pages: iset<int>, refs: seq<int>, k: nat, r: Run, t: seq<set<int>>)
    requires !Spoils(pages) && Over(refs, pages) && IsOptRun(refs, k, r) && IsSchedule(refs, k, t)
    ensures Counted(refs, r, |refs|) <= Cost(refs, t)
  {
    if PageNumbers(refs) {
      OptIsOptimal(refs, k, r, t);
    } else {
      var n := |refs|;
      var i :| 0 <= i < n && refs[i] < 0;
      assert Serves(r.frames[i], refs[i], r.victims[i], r.frames[i + 1], k);
      FirstReferenceFaults(refs, k, t, n);
      if k == 1 {
        OneFrame(refs, r, t, n);
      } else if refs[i] < -1 {
        FewPages(refs, k, r, n, refs[i]);
      } else {
        var p := 0;
        if a: int :| a in pages && a >= 0 {
          p := a;
        }
        forall j | 0 <= j < n ensures refs[j] == p || refs[j] == -1 {
        }
        FewPages(refs, k, r, n, p);
      }
    }
  }

  lemma SpoiltByLow(pages: iset<int>, p: int, q: int)
    requires p in pages && q in pages && p != q && p < -1
    ensures !OptimalOver(pages)
  {
    var r := LowRun(p, q);
    LowPageSpoils(p, q, r);
    NotOptimal(pages, [p, q, p], 2, r, [{}, {p}, {p, q}, {p, q}]);
  }

  lemma SpoiltByNegative(pages: iset<int>, p: int, a: int, b: int)
    requires p in pages && a in pages && b in pages && p < 0 && a >= 0 && b >= 0 && a != b
    ensures !OptimalOver(pages)
  {
    var r := NegativeRun(p, a, b);
    NegativePageSpoils(p, a, b, r);
    NotOptimal(pages, [a, b, p, b], 2, r, [{}, {a}, {a, b}, {p, b}, {p, b}]);
  }

  lemma NotOptimal(pages: iset<int>, refs: seq<int>, k: nat, r: Run, t: seq<set<int>>)
    requires Over(refs, pages) && IsOptRun(refs, k, r) && IsSchedule(refs, k, t)
    requires Counted(refs, r, |refs|) > Cost(refs, t)
    ensures !OptimalOver(pages)
  {
  }

  /** OPT is optimal on all strings over a set of pages exactly when the set does not spoil it. */
  lemma OptimalExactly(pages: iset<int>)
    ensures OptimalOver(pages) <==> !Spoils(pages)
  {
    hide OptVictims, Serves, Moves, Counted, Faults, Over;
    if !Spoils(pages) {
      forall refs, k, r, t | Over(refs, pages) && IsOptRun(refs, k, r) && IsSchedule(refs, k, t)
        ensures Counted(refs, r, |refs|) <= Cost(refs, t)
      {
        OptimalUnlessSpoilt(pages, refs, k, r, t);
      }
    } else if p, q :| p in pages && q in pages && p != q && p < -1 {
      SpoiltByLow(pages, p, q);
    } else {
      var a, b :| a in pages && b in pages && 0 <= a < b;
      SpoiltByNegative(pages, -1, a, b);
    }
  }

  // ----- the simulator's loop -----

  /** The victim search: the first frame never used again, else the one used again last. */
  method FindVictim(frames: array<int>, refs: seq<int>, i: nat) returns (victim: nat)
    requires frames.Length >= 1 && i < |refs|
    ensures FirstFarthest(frames[..], refs, i + 1, victim)
  {
    var location, candidate := -1, -1;
    for j := 0 to frames.Length
      invariant j == 0 ==> location == -1
      invariant j > 0 ==> 0 <= candidate < j && i < location < |refs| && location == FirstFrom(refs, frames[candidate], i + 1)
      invariant forall m | 0 <= m < j :: FirstFrom(refs, frames[m], i + 1) <= location
      invariant forall m | 0 <= m < j && m < candidate :: FirstFrom(refs, frames[m], i + 1) < location
    {
      var flag := false;
      var k := i + 1;
      while k < |refs|
        invariant i < k <= |refs|
        invariant FirstFrom(refs, frames[j], i + 1) == FirstFrom(refs, frames[j], k)
      {
        if frames[j] == refs[k] {
          if location < k {
            location, candidate := k, j;
          }
          flag := true;
          break;
        }
        k := k + 1;
      }
      if !flag {
        assert FirstFrom(refs, frames[j], i + 1) == |refs|;
        return j;
      }
    }
    return candidate;
  }

  /** One more reference of the run, `n` so far; the whole string is known to OPT. */
  lemma ExtendOptRun(refs: seq<int>, n: nat, k: nat, r: Run, victim: nat, after: seq<int>) returns (r': Run)
    requires n < |refs| && IsRun(refs[..n], k, r) && OptVictims(refs, r, n)
    requires Serves(r.frames[n], refs[n], victim, after, k)
    requires Scan(r.frames[n], refs[n], 0).Miss? ==> FirstFarthest(r.frames[n], refs, n + 1, victim)
    ensures r' == Run(r.frames + [after], r.victims + [victim])
    ensures IsRun(refs[..n + 1], k, r') && OptVictims(refs, r', n + 1)
    ensures Counted(refs[..n + 1], r', n) == Counted(refs[..n], r, n)
  {
    hide FirstFarthest, Scan, Serve;
    r' := Run(r.frames + [after], r.victims + [victim]);
    assert refs[..n + 1] == refs[..n] + [refs[n]];
    ExtendRun(refs[..n], k, r, refs[n], victim, after);
    CountedExtend(refs[..n], r, refs[n], after, victim, n);
  }

  /** One reference: the scan, and on a miss the replacement of the farthest page. */
  method ServePage(frames: array<int>, refs: seq<int>, i: nat) returns (fault: bool, ghost victim: nat)
    requires frames.Length >= 1 && i < |refs|
    modifies frames
    ensures Serves(old(frames[..]), refs[i], victim, frames[..], frames.Length)
    ensures Scan(old(frames[..]), refs[i], 0).Miss? ==> FirstFarthest(old(frames[..]), refs, i + 1, victim)
    ensures fault <==> !Scan(old(frames[..]), refs[i], 0).Hit?
  {
    hide FirstFarthest, Scan;
    victim := 0;
    var outcome := ScanFrames(frames, refs[i]);
    fault := !outcome.Hit?;
    if outcome.Miss? {
      var candidate := FindVictim(frames, refs, i);
      assert candidate < frames.Length by {
        FarthestIsFrame(frames[..], refs, i + 1, candidate);
      }
      frames[candidate] := refs[i];
      victim := candidate;
    }
  }

  lemma FarthestIsFrame(frames: seq<int>, refs: seq<int>, i: nat, v: nat)
    requires i <= |refs| && FirstFarthest(frames, refs, i, v)
    ensures v < |frames|
  {
  }

  /** The OPT loop of the simulator. */
  method Simulate(refs: seq<int>, k: nat) returns (pageFault: nat, ghost run: Run)
    requires k >= 1
    ensures IsOptRun(refs, k, run)
    ensures pageFault == Counted(refs, run, |refs|)
    ensures PageNumbers(refs) ==> forall t | IsSchedule(refs, k, t) :: pageFault <= Cost(refs, t)
  {
    hide FirstFarthest, FirstFrom, Scan, Serves, Cost, Moves, IsSchedule;
    var frames := new int[k](_ => -1);
    pageFault := 0;
    run := Run([Empty(k)], []);
    for i := 0 to |refs|
      invariant IsRun(refs[..i], k, run)
      invariant OptVictims(refs, run, i)
      invariant frames[..] == run.frames[i]
      invariant pageFault == Counted(refs[..i], run, i)
    {
      var fault;
      ghost var victim;
      fault, victim := ServePage(frames, refs, i);
      if fault {
        pageFault := pageFault + 1;
      }
      run := ExtendOptRun(refs, i, k, run, victim, frames[..]);
    }
    assert refs[..|refs|] == refs;
    if PageNumbers(refs) {
      OptBeatsAll(refs, k, run);
    }
  }
}
