/** The LRU method: the resident set as a recency stack, inclusion, and the competitive bound. */
module Lru {
  import opened Schedules
  import opened Frames

  /** Index of the last reference to `p` before `n`; -1 when there is none. */
  function LastUse(refs: seq<int>, p: int, n: nat): (m: int)
    requires n <= |refs|
    ensures -1 <= m < n
    ensures m >= 0 ==> refs[m] == p
    ensures forall j | m < j < n :: refs[j] != p
  {
    if n == 0 then -1 else if refs[n - 1] == p then n - 1 else LastUse(refs, p, n - 1)
  }

  /** `v` is the first among the frames whose pages were last used longest ago. */
  ghost predicate FirstOldest(frames: seq<int>, refs: seq<int>, n: nat, v: nat)
    requires n <= |refs|
  {
    && v < |frames|
    && (forall j | 0 <= j < |frames| :: LastUse(refs, frames[v], n) <= LastUse(refs, frames[j], n))
    && (forall j | 0 <= j < v :: LastUse(refs, frames[v], n) < LastUse(refs, frames[j], n))
  }

  ghost predicate LruVictims(refs: seq<int>, r: Run, n: nat)
    requires n <= |refs| && n <= |r.frames| && n <= |r.victims|
  {
    forall i | 0 <= i < n ::
      Scan(r.frames[i], refs[i], 0).Miss? ==> FirstOldest(r.frames[i], refs, i, r.victims[i])
  }

  /** A run of LRU over `k` frames. */
  ghost predicate IsLruRun(refs: seq<int>, k: nat, r: Run) {
    IsRun(refs, k, r) && LruVictims(refs, r, |refs|)
  }

  // ----- the recency stack -----

  /** Pages used after the last use of `p`. */
  ghost function Newer(refs: seq<int>, n: nat, p: int): set<int>
    requires n <= |refs|
  {
    set q | q in Pages(refs, 0, n) && LastUse(refs, p, n) < LastUse(refs, q, n)
  }

  /** The `k` most recently used of the pages referenced before `n`. */
  ghost function Recent(refs: seq<int>, n: nat, k: nat): set<int>
    requires n <= |refs|
  {
    set p | p in Pages(refs, 0, n) && |Newer(refs, n, p)| < k
  }

  /** What the recency stack alone would keep in `k` frames at every moment. */
  ghost function RecentSets(refs: seq<int>, k: nat): (s: seq<set<int>>)
    ensures |s| == |refs| + 1
    ensures forall i | 0 <= i <= |refs| :: s[i] == Recent(refs, i, k)
  {
    seq(|refs| + 1, i requires 0 <= i <= |refs| => Recent(refs, i, k))
  }

  lemma UsedPages(refs: seq<int>, n: nat, p: int)
    requires n <= |refs|
    ensures p in Pages(refs, 0, n) <==> LastUse(refs, p, n) >= 0
  {
    if LastUse(refs, p, n) >= 0 {
      assert refs[LastUse(refs, p, n)] in Pages(refs, 0, n);
    }
  }

  /** Recency orders the referenced pages: of two, the older one has strictly more newer pages. */
  lemma OlderHasMoreNewer(refs: seq<int>, n: nat, p: int, q: int)
    requires n <= |refs| && p in Pages(refs, 0, n) && p in Newer(refs, n, q)
    ensures |Newer(refs, n, p)| < |Newer(refs, n, q)|
  {
    assert p !in Newer(refs, n, p);
    Subset(Newer(refs, n, p) + {p}, Newer(refs, n, q));
  }

  lemma RecencyIsTotal(refs: seq<int>, n: nat, p: int, q: int)
    requires n <= |refs| && p in Pages(refs, 0, n) && q in Pages(refs, 0, n) && p != q
    ensures p in Newer(refs, n, q) || q in Newer(refs, n, p)
  {
    UsedPages(refs, n, p);
    UsedPages(refs, n, q);
  }

  /** A reference puts its page on top and leaves the order of the others alone. */
  lemma NewerStep(refs: seq<int>, n: nat, p: int)
    requires n < |refs|
    ensures Newer(refs, n + 1, refs[n]) == {}
    ensures p in Pages(refs, 0, n) && p != refs[n] ==> Newer(refs, n + 1, p) == Newer(refs, n, p) + {refs[n]}
  {
    PagesGrow(refs, 0, n + 1);
    UsedPages(refs, n, p);
    forall q | q != refs[n] ensures LastUse(refs, q, n + 1) == LastUse(refs, q, n) {
    }
  }

  lemma RecentAfterHit(refs: seq<int>, n: nat, k: nat)
    requires n < |refs| && refs[n] in Recent(refs, n, k)
    ensures Recent(refs, n + 1, k) == Recent(refs, n, k)
  {
    hide Newer, LastUse;
    PagesGrow(refs, 0, n + 1);
    forall p | p in Pages(refs, 0, n)
      ensures |Newer(refs, n + 1, p)| < k <==> |Newer(refs, n, p)| < k
    {
      RankAfterHit(refs, n, k, p);
    }
  }

  /** A hit moves no page across the border of the `k` most recent. */
  lemma RankAfterHit(refs: seq<int>, n: nat, k: nat, p: int)
    requires n < |refs| && refs[n] in Recent(refs, n, k) && p in Pages(refs, 0, n)
    ensures |Newer(refs, n + 1, p)| < k <==> |Newer(refs, n, p)| < k
  {
    hide LastUse;
    var page := refs[n];
    NewerStep(refs, n, p);
    if p != page {
      RecencyIsTotal(refs, n, p, page);
      if page in Newer(refs, n, p) {
        assert Newer(refs, n + 1, p) == Newer(refs, n, p);
      } else {
        OlderHasMoreNewer(refs, n, p, page);
      }
    }
  }

  lemma RecentAfterFill(refs: seq<int>, n: nat, k: nat)
    requires n < |refs| && Recent(refs, n, k) == Pages(refs, 0, n)
    requires |Pages(refs, 0, n)| < k && refs[n] !in Pages(refs, 0, n)
    ensures Recent(refs, n + 1, k) == Pages(refs, 0, n + 1)
  {
    PagesGrow(refs, 0, n + 1);
    var all := Pages(refs, 0, n + 1);
    forall p | p in all ensures |Newer(refs, n + 1, p)| < k {
      Subset(Newer(refs, n + 1, p), all - {p});
    }
  }

  lemma RecentAfterMiss(refs: seq<int>, n: nat, k: nat, v: int)
    requires n < |refs| && k >= 1
    requires |Recent(refs, n, k)| == k && Oldest(refs, n, Recent(refs, n, k), v) && refs[n] !in Recent(refs, n, k)
    ensures Recent(refs, n + 1, k) == Recent(refs, n, k) - {v} + {refs[n]}
  {
    forall p | p in Pages(refs, 0, n) && p != refs[n]
      ensures |Newer(refs, n + 1, p)| < k <==> p in Recent(refs, n, k) - {v}
    {
      RankAfterMiss(refs, n, k, v, p);
    }
    NewerStep(refs, n, refs[n]);
    RecentFromRanks(refs, n, k, Recent(refs, n, k) - {v});
  }

  lemma RecentFromRanks(refs: seq<int>, n: nat, k: nat, kept: set<int>)
    requires n < |refs| && k >= 1 && |Newer(refs, n + 1, refs[n])| == 0
    requires kept <= Pages(refs, 0, n) && refs[n] !in kept
    requires forall p | p in Pages(refs, 0, n) && p != refs[n] :: |Newer(refs, n + 1, p)| < k <==> p in kept
    ensures Recent(refs, n + 1, k) == kept + {refs[n]}
  {
    PagesGrow(refs, 0, n + 1);
  }

  /** `v` was last used before every other page of `x`. */
  ghost predicate Oldest(refs: seq<int>, n: nat, x: set<int>, v: int)
    requires n <= |refs|
  {
    v in x && forall p | p in x :: LastUse(refs, v, n) <= LastUse(refs, p, n)
  }

  lemma RankAfterMiss(refs: seq<int>, n: nat, k: nat, v: int, p: int)
    requires n < |refs| && refs[n] !in Recent(refs, n, k)
    requires |Recent(refs, n, k)| == k && Oldest(refs, n, Recent(refs, n, k), v)
    requires p in Pages(refs, 0, n) && p != refs[n]
    ensures |Newer(refs, n + 1, p)| < k <==> p in Recent(refs, n, k) && p != v
  {
    AllButVictimNewer(refs, n, k, v);
    if p in Recent(refs, n, k) {
      RecentGetsOlder(refs, n, k, p);
      if p != v {
        RecencyIsTotal(refs, n, p, v);
        OlderHasMoreNewer(refs, n, p, v);
      }
    } else {
      NewerStep(refs, n, p);
      Subset(Newer(refs, n, p), Newer(refs, n + 1, p));
    }
  }

  lemma RecentGetsOlder(refs: seq<int>, n: nat, k: nat, p: int)
    requires n < |refs| && p in Recent(refs, n, k) && refs[n] !in Recent(refs, n, k)
    ensures |Newer(refs, n + 1, p)| == |Newer(refs, n, p)| + 1
  {
    NewerStep(refs, n, p);
    if refs[n] in Newer(refs, n, p) {
      OlderHasMoreNewer(refs, n, refs[n], p);
    }
  }

  lemma AllButVictimNewer(refs: seq<int>, n: nat, k: nat, v: int)
    requires n < |refs| && |Recent(refs, n, k)| == k && v in Recent(refs, n, k)
    requires forall p | p in Recent(refs, n, k) :: LastUse(refs, v, n) <= LastUse(refs, p, n)
    ensures |Newer(refs, n, v)| + 1 == k
  {
    forall p | p in Recent(refs, n, k) - {v} ensures p in Newer(refs, n, v) {
      RecencyIsTotal(refs, n, p, v);
    }
    Subset(Recent(refs, n, k) - {v}, Newer(refs, n, v));
  }

  lemma StackAtStart(refs: seq<int>, k: nat)
    ensures Resident(Empty(k)) == Pages(refs, 0, 0) == Recent(refs, 0, k) == {}
  {
    assert Resident(Empty(k)) == {};
    assert Pages(refs, 0, 0) == {};
  }

  /** The stack property: what LRU keeps are exactly the most recently used pages. */
  lemma {:induction false} LruStack(refs: seq<int>, k: nat, r: Run, i: nat)
    requires k >= 1 && IsLruRun(refs, k, r) && PageNumbers(refs) && i <= |refs|
    ensures Resident(r.frames[i]) == Recent(refs, i, k)
    ensures |Resident(r.frames[i])| == if |Pages(refs, 0, i)| < k then |Pages(refs, 0, i)| else k
    ensures |Resident(r.frames[i])| < k ==> Resident(r.frames[i]) == Pages(refs, 0, i)
    decreases i
  {
    hide Resident, Recent, Pages, LruVictims, Serves;
    ResidentCount(refs, k, r, i);
    if i == 0 {
      StackAtStart(refs, k);
    } else {
      RecentWasUsed(refs, i, k);
      LruStack(refs, k, r, i - 1);
      LruStackStep(refs, k, r, i - 1);
      Subset(Recent(refs, i, k), Pages(refs, 0, i));
    }
  }

  lemma RecentWasUsed(refs: seq<int>, n: nat, k: nat)
    requires n <= |refs|
    ensures Recent(refs, n, k) <= Pages(refs, 0, n)
  {
  }

  lemma LruStackStep(refs: seq<int>, k: nat, r: Run, i: nat)
    requires k >= 1 && IsLruRun(refs, k, r) && PageNumbers(refs) && i < |refs|
    requires Resident(r.frames[i]) == Recent(refs, i, k)
    requires |Resident(r.frames[i])| < k ==> Resident(r.frames[i]) == Pages(refs, 0, i)
    ensures Resident(r.frames[i + 1]) == Recent(refs, i + 1, k)
    ensures |Resident(r.frames[i + 1])| < k ==> Resident(r.frames[i + 1]) == Pages(refs, 0, i + 1)
  {
    LruMove(refs, k, r, i);
    AfterMove(refs, i, k, Resident(r.frames[i]), r.frames[i][r.victims[i]], Resident(r.frames[i + 1]));
  }

  lemma AfterMove(refs: seq<int>, n: nat, k: nat, x: set<int>, v: int, x': set<int>)
    requires n < |refs| && k >= 1 && x == Recent(refs, n, k) && (|x| < k ==> x == Pages(refs, 0, n))
    requires Moved(refs, n, k, x, v, x')
    ensures x' == Recent(refs, n + 1, k) && (|x'| < k ==> x' == Pages(refs, 0, n + 1))
  {
    if refs[n] in x {
      RecentAfterHit(refs, n, k);
      PagesGrow(refs, 0, n + 1);
      assert Pages(refs, 0, n + 1) == Pages(refs, 0, n);
    } else if |x| < k {
      RecentAfterFill(refs, n, k);
      PagesGrow(refs, 0, n + 1);
    } else {
      RecentAfterMiss(refs, n, k, v);
    }
  }

  /** One LRU step on resident sets. */
  ghost predicate Moved(refs: seq<int>, n: nat, k: nat, x: set<int>, v: int, x': set<int>)
    requires n < |refs|
  {
    if refs[n] in x then x' == x
    else if |x| < k then x' == x + {refs[n]}
    else |x| == k == |x'| && Oldest(refs, n, x, v) && x' == x - {v} + {refs[n]}
  }

  lemma LruMove(refs: seq<int>, k: nat, r: Run, i: nat)
    requires IsLruRun(refs, k, r) && PageNumbers(refs) && i < |refs|
    ensures |r.frames[i]| == k && r.victims[i] < k
    ensures Moved(refs, i, k, Resident(r.frames[i]), r.frames[i][r.victims[i]], Resident(r.frames[i + 1]))
  {
    var before, page, v := r.frames[i], refs[i], r.victims[i];
    assert Serves(before, page, v, r.frames[i + 1], k);
    var m := RunPacked(refs, k, r, i);
    PackedCount(before, m);
    var m' := ServePacked(before, m, page, v);
    PackedCount(r.frames[i + 1], m');
    if Scan(before, page, 0).Miss? {
      OldestOfResident(before, refs, i, v);
    }
  }

  lemma OldestOfResident(frames: seq<int>, refs: seq<int>, n: nat, v: nat)
    requires n <= |refs| && FirstOldest(frames, refs, n, v) && Packed(frames, |frames|)
    ensures Oldest(refs, n, Resident(frames), frames[v])
  {
  }

  /** Inclusion: at every moment LRU over more frames holds all that LRU over fewer frames holds. */
  lemma LruInclusion(refs: seq<int>, k: nat, r: Run, k': nat, r': Run, i: nat)
    requires 1 <= k <= k' && i <= |refs| && PageNumbers(refs)
    requires IsLruRun(refs, k, r) && IsLruRun(refs, k', r')
    ensures Resident(r.frames[i]) <= Resident(r'.frames[i])
  {
    hide Resident, LruVictims, Serves;
    LruStack(refs, k, r, i);
    LruStack(refs, k', r', i);
    RecentGrows(refs, i, k, k');
  }

  lemma RecentGrows(refs: seq<int>, n: nat, k: nat, k': nat)
    requires n <= |refs| && k <= k'
    ensures Recent(refs, n, k) <= Recent(refs, n, k')
  {
  }

  lemma HitsStayHits(refs: seq<int>, k: nat, r: Run, k': nat, r': Run, i: nat)
    requires 1 <= k <= k' && i < |refs| && PageNumbers(refs)
    requires IsLruRun(refs, k, r) && IsLruRun(refs, k', r')
    ensures Scan(r.frames[i], refs[i], 0).Hit? ==> Scan(r'.frames[i], refs[i], 0).Hit?
  {
    hide LruVictims, Serves, Scan, Resident;
    LruInclusion(refs, k, r, k', r', i);
    HitIsResident(refs, k, r, i);
    HitIsResident(refs, k', r', i);
  }

  /** ... so more frames never cost LRU more faults. */
  lemma LruMoreFramesNeverHurt(refs: seq<int>, k: nat, r: Run, k': nat, r': Run, n: nat)
    requires 1 <= k <= k' && n <= |refs| && PageNumbers(refs)
    requires IsLruRun(refs, k, r) && IsLruRun(refs, k', r')
    ensures Counted(refs, r', n) <= Counted(refs, r, n)
  {
    hide LruVictims, Scan, Serves, Counted;
    forall i | 0 <= i < n && Scan(r.frames[i], refs[i], 0).Hit? ensures Scan(r'.frames[i], refs[i], 0).Hit? {
      HitsStayHits(refs, k, r, k', r', i);
    }
    FewerFaults(refs, r, r', n);
  }

  // ----- the competitive bound -----

  /** A page used in a stretch of at most `k` distinct pages stays among the `k` most recent. */
  lemma UsedInStretchIsRecent(refs: seq<int>, k: nat, a: nat, b: nat, p: int)
    requires a <= b <= |refs| && p in Pages(refs, a, b) && |Pages(refs, a, b)| <= k
    ensures p in Recent(refs, b, k)
  {
    var i :| a <= i < b && refs[i] == p;
    assert LastUse(refs, p, b) >= a;
    UsedPages(refs, b, p);
    forall q | q in Newer(refs, b, p) ensures q in Pages(refs, a, b) - {p} {
      assert refs[LastUse(refs, q, b)] == q;
    }
    Subset(Newer(refs, b, p), Pages(refs, a, b) - {p});
  }

  /** What a narrow stretch has used is still resident at its end. */
  lemma UsedInStretchIsResident(refs: seq<int>, k: nat, r: Run, a: nat, b: nat, p: int)
    requires k >= 1 && IsLruRun(refs, k, r) && PageNumbers(refs) && a <= b <= |refs|
    requires p in Pages(refs, a, b) && |Pages(refs, a, b)| <= k
    ensures p in Residents(r)[b]
  {
    hide Pages, Recent, Resident, LruVictims, Serves;
    UsedInStretchIsRecent(refs, k, a, b, p);
    LruStack(refs, k, r, b);
  }

  lemma FaultsOfNarrowStretch(refs: seq<int>, k: nat, r: Run, a: nat, b: nat)
    requires k >= 1 && IsLruRun(refs, k, r) && PageNumbers(refs) && a <= b <= |refs|
    requires |Pages(refs, a, b)| <= k
    ensures Faults(refs, Residents(r), a, b) <= |Pages(refs, a, b)|
  {
    forall i | a <= i < b && refs[i] in Pages(refs, a, i) ensures refs[i] in Residents(r)[i] {
      Subset(Pages(refs, a, i), Pages(refs, a, b));
      UsedInStretchIsResident(refs, k, r, a, i, refs[i]);
    }
    hide Pages, LruVictims, Serves, Resident;
    OneFaultAPage(refs, Residents(r), a, b);
  }

  lemma LruConservative(refs: seq<int>, k: nat, r: Run)
    requires k >= 1 && IsLruRun(refs, k, r) && PageNumbers(refs)
    ensures Conservative(refs, k, Residents(r))
  {
    forall a: nat, b: nat | a <= b <= |refs| && Faults(refs, Residents(r), a, b) <= k + 1
      ensures Faults(refs, Residents(r), a, b) <= |Pages(refs, a, b)|
    {
      if |Pages(refs, a, b)| <= k {
        FaultsOfNarrowStretch(refs, k, r, a, b);
      }
    }
  }

  /** LRU over `k` frames against any schedule over `h <= k` frames. */
  lemma LruCompetitive(refs: seq<int>, k: nat, r: Run, h: nat, t: seq<set<int>>)
    requires 1 <= h <= k && IsLruRun(refs, k, r) && PageNumbers(refs) && IsSchedule(refs, h, t)
    ensures (k - h + 1) * Counted(refs, r, |refs|) <= k * Cost(refs, t)
  {
    LruConservative(refs, k, r);
    ConservativeIsCompetitive(refs, k, Residents(r), h, t, |refs|);
    CountedIsCost(refs, k, r, |refs|);
  }

  /** A whole run seen through the recency stack: its resident sets and its faults. */
  lemma LruFollowsStack(refs: seq<int>, k: nat, r: Run)
    requires k >= 1 && IsLruRun(refs, k, r) && PageNumbers(refs)
    ensures Residents(r) == RecentSets(refs, k)
    ensures Counted(refs, r, |refs|) == Cost(refs, RecentSets(refs, k))
  {
    hide Recent, Resident, LruVictims;
    forall i | 0 <= i <= |refs| ensures Residents(r)[i] == RecentSets(refs, k)[i] {
      LruStack(refs, k, r, i);
    }
    assert Residents(r) == RecentSets(refs, k);
    CountedIsCost(refs, k, r, |refs|);
  }

  // ----- the simulator's loop -----

  /** Frames only ever hold referenced pages. */
  lemma {:induction false} FramesComeFromReferences(refs: seq<int>, k: nat, r: Run, i: nat, j: nat)
    requires IsRun(refs, k, r) && i <= |refs| && j < k
    ensures |r.frames[i]| == k
    ensures r.frames[i][j] == -1 || LastUse(refs, r.frames[i][j], i) >= 0
    decreases i
  {
    if i > 0 {
      FramesComeFromReferences(refs, k, r, i - 1, j);
      assert Serves(r.frames[i - 1], refs[i - 1], r.victims[i - 1], r.frames[i], k);
    }
  }

  /** The victim search: the first frame whose last use has the smallest index. */
  method FindVictim(frames: array<int>, refs: seq<int>, i: nat) returns (victim: nat)
    requires frames.Length >= 1 && i < |refs|
    requires forall j | 0 <= j < frames.Length :: LastUse(refs, frames[j], i) >= 0
    ensures FirstOldest(frames[..], refs, i, victim)
  {
    var location, candidate := |refs|, -1;
    for j := 0 to frames.Length
      invariant j == 0 ==> location == |refs|
      invariant j > 0 ==> 0 <= candidate < j && location == LastUse(refs, frames[candidate], i)
      invariant forall m | 0 <= m < j :: location <= LastUse(refs, frames[m], i)
      invariant forall m | 0 <= m < j && m < candidate :: location < LastUse(refs, frames[m], i)
    {
      var k := i - 1;
      while k >= 0
        invariant -1 <= k < i
        invariant LastUse(refs, frames[j], i) == LastUse(refs, frames[j], k + 1)
      {
        if frames[j] == refs[k] {
          if location > k {
            location, candidate := k, j;
          }
          break;
        }
        k := k - 1;
      }
    }
    return candidate;
  }

  lemma {:induction false} LastUsePrefix(refs: seq<int>, n: nat, p: int, m: nat)
    requires m <= n <= |refs|
    ensures LastUse(refs[..n], p, m) == LastUse(refs, p, m)
    decreases m
  {
    if m > 0 && refs[m - 1] != p {
      LastUsePrefix(refs, n, p, m - 1);
    }
  }

  lemma AllFull(frames: seq<int>, page: int, j: nat)
    requires j <= |frames| && Scan(frames, page, j).Miss?
    ensures forall i | j <= i < |frames| :: frames[i] >= 0 && frames[i] != page
    decreases |frames| - j
  {
  }

  lemma ExtendLruRun(refs: seq<int>, n: nat, k: nat, r: Run, victim: nat, after: seq<int>) returns (r': Run)
    requires n < |refs| && IsRun(refs[..n], k, r) && LruVictims(refs, r, n)
    requires Serves(r.frames[n], refs[n], victim, after, k)
    requires Scan(r.frames[n], refs[n], 0).Miss? ==> FirstOldest(r.frames[n], refs, n, victim)
    ensures r' == Run(r.frames + [after], r.victims + [victim])
    ensures IsRun(refs[..n + 1], k, r') && LruVictims(refs, r', n + 1)
    ensures Counted(refs[..n + 1], r', n) == Counted(refs[..n], r, n)
  {
    hide FirstOldest, Scan, Serve;
    r' := Run(r.frames + [after], r.victims + [victim]);
    assert refs[..n + 1] == refs[..n] + [refs[n]];
    ExtendRun(refs[..n], k, r, refs[n], victim, after);
    CountedExtend(refs[..n], r, refs[n], after, victim, n);
  }

  /** On a miss every page in the frame array has been used before. */
  lemma FullFramesWereUsed(refs: seq<int>, n: nat, k: nat, r: Run)
    requires n < |refs| && IsRun(refs[..n], k, r)
    ensures Scan(r.frames[n], refs[n], 0).Miss? ==> forall j | 0 <= j < |r.frames[n]| :: LastUse(refs, r.frames[n][j], n) >= 0
  {
    if Scan(r.frames[n], refs[n], 0).Miss? {
      AllFull(r.frames[n], refs[n], 0);
      RunKeepsFrameCount(refs[..n], k, r, n);
      forall j | 0 <= j < |r.frames[n]| ensures LastUse(refs, r.frames[n][j], n) >= 0 {
        FramesComeFromReferences(refs[..n], k, r, n, j);
        LastUsePrefix(refs, n, r.frames[n][j], n);
      }
    }
  }

  /** One reference: the scan, and on a miss the replacement of the page used longest ago. */
  method ServePage(frames: array<int>, refs: seq<int>, i: nat) returns (fault: bool, ghost victim: nat)
    requires frames.Length >= 1 && i < |refs|
    requires Scan(frames[..], refs[i], 0).Miss? ==> forall j | 0 <= j < frames.Length :: LastUse(refs, frames[j], i) >= 0
    modifies frames
    ensures Serves(old(frames[..]), refs[i], victim, frames[..], frames.Length)
    ensures Scan(old(frames[..]), refs[i], 0).Miss? ==> FirstOldest(old(frames[..]), refs, i, victim)
    ensures fault <==> !Scan(old(frames[..]), refs[i], 0).Hit?
  {
    hide FirstOldest, Scan, LastUse;
    victim := 0;
    var outcome := ScanFrames(frames, refs[i]);
    fault := !outcome.Hit?;
    if outcome.Miss? {
      var candidate := FindVictim(frames, refs, i);
      assert candidate < frames.Length by {
        OldestIsFrame(frames[..], refs, i, candidate);
      }
      frames[candidate] := refs[i];
      victim := candidate;
    }
  }

  lemma OldestIsFrame(frames: seq<int>, refs: seq<int>, n: nat, v: nat)
    requires n <= |refs| && FirstOldest(frames, refs, n, v)
    ensures v < |frames|
  {
  }

  /** The LRU loop of the simulator. */
  method Simulate(refs: seq<int>, k: nat) returns (pageFault: nat, ghost run: Run)
    requires k >= 1
    ensures IsLruRun(refs, k, run)
    ensures pageFault == Counted(refs, run, |refs|)
    ensures PageNumbers(refs) ==> Residents(run) == RecentSets(refs, k)
    ensures PageNumbers(refs) ==> pageFault == Cost(refs, RecentSets(refs, k))
  {
    hide FirstOldest, LastUse, Recent, RecentSets, Resident, Residents, Scan, Serves, Faults;
    var frames := new int[k](_ => -1);
    pageFault := 0;
    run := Run([Empty(k)], []);
    for i := 0 to |refs|
      invariant IsRun(refs[..i], k, run)
      invariant LruVictims(refs, run, i)
      invariant frames[..] == run.frames[i]
      invariant pageFault == Counted(refs[..i], run, i)
    {
      FullFramesWereUsed(refs, i, k, run);
      var fault;
      ghost var victim;
      fault, victim := ServePage(frames, refs, i);
      if fault {
        pageFault := pageFault + 1;
      }
      run := ExtendLruRun(refs, i, k, run, victim, frames[..]);
    }
    assert refs[..|refs|] == refs;
    if PageNumbers(refs) {
      LruFollowsStack(refs, k, run);
    }
  }
}
