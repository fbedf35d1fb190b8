/** The FIFO method: frames and a hand as the textbook queue, and its competitive bound. */
module Fifo {
  import opened Schedules
  import opened Frames

  function Advance(hand: nat, k: nat): nat {
    if hand + 1 == k then 0 else hand + 1
  }

  /** The hand before reference `i`: it moves on only when a victim is replaced. */
  ghost function HandAt(refs: seq<int>, k: nat, frames: seq<seq<int>>, i: nat): nat
    requires i <= |refs| < |frames|
    decreases i
  {
    if i == 0 then 0
    else if Scan(frames[i - 1], refs[i - 1], 0).Miss? then Advance(HandAt(refs, k, frames, i - 1), k)
    else HandAt(refs, k, frames, i - 1)
  }

  lemma {:induction false} HandExtend(refs: seq<int>, k: nat, frames: seq<seq<int>>, page: int, after: seq<int>, i: nat)
    requires i <= |refs| < |frames|
    ensures HandAt(refs + [page], k, frames + [after], i) == HandAt(refs, k, frames, i)
    decreases i
  {
    if i > 0 {
      HandExtend(refs, k, frames, page, after, i - 1);
    }
  }

  /** A run of FIFO; `victims[i]` is the hand before reference `i`. */
  ghost predicate IsFifoRun(refs: seq<int>, k: nat, r: Run) {
    IsRun(refs, k, r) && forall i | 0 <= i < |refs| :: r.victims[i] == HandAt(refs, k, r.frames, i)
  }

  lemma ExtendFifoRun(refs: seq<int>, k: nat, r: Run, page: int, after: seq<int>)
    returns (refs': seq<int>, r': Run)
    requires IsFifoRun(refs, k, r)
    requires Serves(r.frames[|refs|], page, HandAt(refs, k, r.frames, |refs|), after, k)
    ensures refs' == refs + [page] && r' == Run(r.frames + [after], r.victims + [HandAt(refs, k, r.frames, |refs|)])
    ensures IsFifoRun(refs', k, r')
    ensures HandAt(refs', k, r'.frames, |refs|) == HandAt(refs, k, r.frames, |refs|)
    ensures var miss := Scan(r.frames[|refs|], page, 0);
      && Counted(refs', r', |refs'|) == Counted(refs, r, |refs|) + (if miss.Hit? then 0 else 1)
      && HandAt(refs', k, r'.frames, |refs'|)
         == if miss.Miss? then Advance(HandAt(refs, k, r.frames, |refs|), k) else HandAt(refs, k, r.frames, |refs|)
  {
    hide Scan, Serve;
    var hand := HandAt(refs, k, r.frames, |refs|);
    refs', r' := refs + [page], Run(r.frames + [after], r.victims + [hand]);
    ExtendRun(refs, k, r, page, hand, after);
    CountedExtend(refs, r, page, after, hand, |refs|);
    forall i | 0 <= i < |refs'| ensures r'.victims[i] == HandAt(refs', k, r'.frames, i) {
      HandExtend(refs, k, r.frames, page, after, i);
    }
    HandExtend(refs, k, r.frames, page, after, |refs|);
  }

  // ----- the textbook queue -----

  /** The `k` most recent loads. */
  function Window(q: seq<int>, k: nat): (w: seq<int>)
    ensures |w| <= k && |w| <= |q|
  {
    if |q| <= k then q else q[|q| - k..]
  }

  /** Every page loaded by the first `n` references, oldest first: a page is loaded unless it is in the queue. */
  ghost function Loads(refs: seq<int>, k: nat, n: nat): seq<int>
    requires n <= |refs|
    decreases n
  {
    if n == 0 then []
    else
      var q := Loads(refs, k, n - 1);
      if refs[n - 1] in Window(q, k) then q else q + [refs[n - 1]]
  }

  /** The frame array read from the hand round to the hand is the queue `q`. */
  ghost predicate Holds(frames: seq<int>, hand: nat, q: seq<int>, k: nat) {
    && |frames| == k
    && hand < k
    && (forall i | 0 <= i < |q| :: q[i] >= 0)
    && if |q| < k then frames == q + Empty(k - |q|) && hand == 0
       else Round(frames, hand) == Window(q, k)
  }

  function Round(frames: seq<int>, hand: nat): (round: seq<int>)
    requires hand <= |frames|
    ensures |round| == |frames|
  {
    frames[hand..] + frames[..hand]
  }

  lemma RoundMembers(frames: seq<int>, hand: nat, x: int)
    requires hand <= |frames|
    ensures x in Round(frames, hand) <==> x in frames
  {
    assert frames == frames[..hand] + frames[hand..];
  }

  lemma HoldsMembers(frames: seq<int>, hand: nat, q: seq<int>, k: nat, page: int)
    requires Holds(frames, hand, q, k) && page >= 0
    ensures page in Window(q, k) <==> page in Resident(frames)
  {
    RoundMembers(frames, hand, page);
    assert page in frames <==> page in Resident(frames);
    if |q| < k {
      assert page !in Empty(k - |q|);
    }
  }

  lemma HoldsCount(frames: seq<int>, m: nat, hand: nat, q: seq<int>, k: nat)
    requires Holds(frames, hand, q, k) && Packed(frames, m)
    ensures m == if |q| < k then |q| else k
  {
    assert forall j | 0 <= j < k :: frames[j] >= 0 <==> j < m;
    hide Packed;
    if |q| < k {
      assert forall j | 0 <= j < k :: frames[j] >= 0 <==> j < |q|;
      assert frames[|q|] < 0;
      assert |q| > 0 ==> frames[|q| - 1] >= 0;
    } else {
      forall j | 0 <= j < k ensures frames[j] >= 0 {
        RoundMembers(frames, hand, frames[j]);
        assert frames[j] in Window(q, k);
      }
      assert frames[k - 1] >= 0;
    }
  }

  lemma ReplaceRound(frames: seq<int>, hand: nat, page: int)
    requires hand < |frames|
    ensures Round(frames[hand := page], Advance(hand, |frames|)) == Round(frames, hand)[1..] + [page]
  {
    if hand + 1 == |frames| {
      assert Round(frames, hand)[1..] == frames[..hand];
    } else {
      assert Round(frames, hand)[1..] == frames[hand + 1..] + frames[..hand];
    }
  }

  /** One reference served by the array is the same reference served by the queue. */
  lemma HoldsStep(frames: seq<int>, m: nat, hand: nat, q: seq<int>, k: nat, page: int)
    requires Holds(frames, hand, q, k) && Packed(frames, m) && page >= 0
    ensures var o := Scan(frames, page, 0);
      Holds(Serve(frames, page, hand), if o.Miss? then Advance(hand, k) else hand,
            if page in Window(q, k) then q else q + [page], k)
  {
    ScanPacked(frames, m, page, 0);
    HoldsMembers(frames, hand, q, k, page);
    HoldsCount(frames, m, hand, q, k);
    match Scan(frames, page, 0)
    case Hit(_) =>
    case Fill(j) =>
      FillQueue(frames, q, k, page);
    case Miss =>
      ReplaceQueue(frames, hand, q, k, page);
  }

  lemma ReplaceQueue(frames: seq<int>, hand: nat, q: seq<int>, k: nat, page: int)
    requires Holds(frames, hand, q, k) && |q| >= k && page >= 0
    ensures Holds(frames[hand := page], Advance(hand, k), q + [page], k)
  {
    ReplaceRound(frames, hand, page);
    assert Window(q + [page], k) == Window(q, k)[1..] + [page];
  }

  lemma FillQueue(frames: seq<int>, q: seq<int>, k: nat, page: int)
    requires |q| < k && frames == q + Empty(k - |q|)
    ensures frames[|q| := page] == (q + [page]) + Empty(k - |q| - 1)
    ensures |q| + 1 == k ==> Round(frames[|q| := page], 0) == q + [page]
  {
  }

  lemma EmptyHolds(k: nat)
    requires k >= 1
    ensures Holds(Empty(k), 0, [], k)
  {
    assert [] + Empty(k) == Empty(k);
  }

  lemma NextHand(refs: seq<int>, k: nat, frames: seq<seq<int>>, i: nat)
    requires i < |refs| < |frames|
    ensures HandAt(refs, k, frames, i + 1) ==
      if Scan(frames[i], refs[i], 0).Miss? then Advance(HandAt(refs, k, frames, i), k) else HandAt(refs, k, frames, i)
  {
  }

  lemma NextLoads(refs: seq<int>, k: nat, i: nat)
    requires i < |refs|
    ensures var q := Loads(refs, k, i);
      Loads(refs, k, i + 1) == if refs[i] in Window(q, k) then q else q + [refs[i]]
  {
  }

  lemma {:induction false} FifoHolds(refs: seq<int>, k: nat, r: Run, i: nat)
    requires k >= 1 && IsFifoRun(refs, k, r) && PageNumbers(refs) && i <= |refs|
    ensures Holds(r.frames[i], HandAt(refs, k, r.frames, i), Loads(refs, k, i), k)
    decreases i
  {
    hide Holds, Window, Scan, Serve, Packed;
    if i == 0 {
      EmptyHolds(k);
    } else {
      hide HandAt, Loads;
      FifoHolds(refs, k, r, i - 1);
      var m := RunPacked(refs, k, r, i - 1);
      assert Serves(r.frames[i - 1], refs[i - 1], r.victims[i - 1], r.frames[i], k);
      assert r.victims[i - 1] == HandAt(refs, k, r.frames, i - 1);
      NextHand(refs, k, r.frames, i - 1);
      NextLoads(refs, k, i - 1);
      HoldsStep(r.frames[i - 1], m, r.victims[i - 1], Loads(refs, k, i - 1), k, refs[i - 1]);
    }
  }

  lemma FifoResident(refs: seq<int>, k: nat, r: Run, n: nat, p: int)
    requires k >= 1 && IsFifoRun(refs, k, r) && PageNumbers(refs) && n <= |refs| && p >= 0
    ensures p in Resident(r.frames[n]) <==> p in Window(Loads(refs, k, n), k)
  {
    FifoHolds(refs, k, r, n);
    HoldsMembers(r.frames[n], HandAt(refs, k, r.frames, n), Loads(refs, k, n), k, p);
  }

  /** The array-and-hand code refines the queue: it faults exactly when the queue loads. */
  lemma {:induction false} FifoIsTheQueue(refs: seq<int>, k: nat, r: Run, n: nat)
    requires k >= 1 && IsFifoRun(refs, k, r) && PageNumbers(refs) && n <= |refs|
    ensures Counted(refs, r, n) == |Loads(refs, k, n)|
    ensures forall p | p >= 0 :: p in Resident(r.frames[n]) <==> p in Window(Loads(refs, k, n), k)
    decreases n
  {
    hide Window, Resident, Packed, HandAt, Holds, Loads;
    forall p | p >= 0 ensures p in Resident(r.frames[n]) <==> p in Window(Loads(refs, k, n), k) {
      FifoResident(refs, k, r, n, p);
    }
    if n == 0 {
      NoLoads(refs, k);
    } else {
      FifoIsTheQueue(refs, k, r, n - 1);
      var m := RunPacked(refs, k, r, n - 1);
      ScanPacked(r.frames[n - 1], m, refs[n - 1], 0);
      NextLoads(refs, k, n - 1);
    }
  }

  // ----- the competitive bound -----

  /** Any `k + 1` consecutive elements differ. */
  ghost predicate Spread(q: seq<int>, k: nat) {
    forall a, b | 0 <= a < b < |q| && b - a <= k :: q[a] != q[b]
  }

  lemma SpreadExtend(q: seq<int>, k: nat, p: int)
    requires Spread(q, k) && p !in Window(q, k)
    ensures Spread(q + [p], k)
  {
    var w := Window(q, k);
    forall a | 0 <= a < |q| && |q| - a <= k ensures q[a] != p {
      assert q[a] == w[a - (|q| - |w|)];
    }
  }

  /** Any `k + 1` consecutive loads are of pairwise distinct pages. */
  lemma {:induction false} ConsecutiveLoadsDiffer(refs: seq<int>, k: nat, n: nat)
    requires n <= |refs|
    ensures Spread(Loads(refs, k, n), k)
    decreases n
  {
    hide Spread, Window, Loads;
    if n == 0 {
      NoLoads(refs, k);
    } else {
      ConsecutiveLoadsDiffer(refs, k, n - 1);
      NextLoads(refs, k, n - 1);
      if refs[n - 1] !in Window(Loads(refs, k, n - 1), k) {
        SpreadExtend(Loads(refs, k, n - 1), k, refs[n - 1]);
      }
    }
  }

  lemma NoLoads(refs: seq<int>, k: nat)
    ensures Loads(refs, k, 0) == [] && Spread([], k)
  {
  }

  /** All elements from index `base` on are in `w`. */
  ghost predicate Beyond(q: seq<int>, base: nat, w: set<int>) {
    base <= |q| && forall i | base <= i < |q| :: q[i] in w
  }

  lemma BeyondStep(q: seq<int>, base: nat, w: set<int>, p: int)
    requires Beyond(q, base, w)
    ensures Beyond(q, base, w + {p}) && Beyond(q + [p], base, w + {p})
  {
  }

  lemma BeyondNothing(q: seq<int>, w: set<int>)
    ensures Beyond(q, |q|, w)
  {
  }

  /** Loads made in a stretch are of pages referenced in it. */
  lemma {:induction false} LoadsOfStretch(refs: seq<int>, k: nat, a: nat, b: nat)
    requires a <= b <= |refs|
    ensures Beyond(Loads(refs, k, b), |Loads(refs, k, a)|, Pages(refs, a, b))
    decreases b
  {
    hide Window, Beyond, Loads, Pages;
    if a == b {
      BeyondNothing(Loads(refs, k, a), Pages(refs, a, a));
    } else {
      LoadsOfStretch(refs, k, a, b - 1);
      NextLoads(refs, k, b - 1);
      BeyondStep(Loads(refs, k, b - 1), |Loads(refs, k, a)|, Pages(refs, a, b - 1), refs[b - 1]);
      PagesGrow(refs, a, b);
    }
  }

  lemma FifoConservative(refs: seq<int>, k: nat, r: Run)
    requires k >= 1 && IsFifoRun(refs, k, r) && PageNumbers(refs)
    ensures Conservative(refs, k, Residents(r))
  {
    var s := Residents(r);
    forall a: nat, b: nat | a <= b <= |refs| && Faults(refs, s, a, b) <= k + 1
      ensures Faults(refs, s, a, b) <= |Pages(refs, a, b)|
    {
      FifoIsTheQueue(refs, k, r, a);
      FifoIsTheQueue(refs, k, r, b);
      CountedIsCost(refs, k, r, a);
      CountedIsCost(refs, k, r, b);
      FaultsSplit(refs, s, 0, a, b);
      LoadsOfStretch(refs, k, a, b);
      ConsecutiveLoadsDiffer(refs, k, b);
      var q, base := Loads(refs, k, b), |Loads(refs, k, a)|;
      var loads := q[base..];
      assert forall x | x in loads :: x in Pages(refs, a, b);
      DistinctCount(loads);
      Subset((set x | x in loads), Pages(refs, a, b));
    }
  }

  /** FIFO over `k` frames against any schedule over `h <= k` frames. */
  lemma FifoCompetitive(refs: seq<int>, k: nat, r: Run, h: nat, t: seq<set<int>>)
    requires 1 <= h <= k && IsFifoRun(refs, k, r) && PageNumbers(refs) && IsSchedule(refs, h, t)
    ensures (k - h + 1) * Counted(refs, r, |refs|) <= k * Cost(refs, t)
  {
    FifoConservative(refs, k, r);
    ConservativeIsCompetitive(refs, k, Residents(r), h, t, |refs|);
    CountedIsCost(refs, k, r, |refs|);
  }

  // ----- the simulator's loop -----

  lemma FreshIsFifo(k: nat)
    ensures var r := Run([Empty(k)], []); IsFifoRun([], k, r) && HandAt([], k, r.frames, 0) == 0 && Counted([], r, 0) == 0
  {
  }

  /** One reference: the scan, on a miss the replacement at the hand, and the wrap of the hand. */
  method ServePage(frames: array<int>, victim: nat, page: int) returns (next: nat, fault: bool)
    requires victim < frames.Length
    modifies frames
    ensures Serves(old(frames[..]), page, victim, frames[..], frames.Length)
    ensures next == if Scan(old(frames[..]), page, 0).Miss? then Advance(victim, frames.Length) else victim
    ensures fault <==> !Scan(old(frames[..]), page, 0).Hit?
  {
    hide Scan;
    next := victim;
    var outcome := ScanFrames(frames, page);
    fault := !outcome.Hit?;
    if outcome.Miss? {
      frames[next] := page;
      next := next + 1;
    }
    if next == frames.Length {
      next := 0;
    }
  }

  /** The FIFO loop of the simulator. */
  method Simulate(refs: seq<int>, k: nat) returns (pageFault: nat, ghost run: Run)
    requires k >= 1
    ensures IsFifoRun(refs, k, run)
    ensures pageFault == Counted(refs, run, |refs|)
    ensures PageNumbers(refs) ==> pageFault == |Loads(refs, k, |refs|)|
  {
    hide Scan, Serves, Loads, HandAt, Counted, IsFifoRun;
    FreshIsFifo(k);
    var frames := new int[k](_ => -1);
    var victim := 0;
    pageFault := 0;
    run := Run([Empty(k)], []);
    for i := 0 to |refs|
      invariant |run.frames| == i + 1 && IsFifoRun(refs[..i], k, run)
      invariant frames[..] == run.frames[i]
      invariant victim < k
      invariant victim == HandAt(refs[..i], k, run.frames, i)
      invariant pageFault == Counted(refs[..i], run, i)
    {
      var fault;
      ghost var served;
      victim, fault := ServePage(frames, victim, refs[i]);
      served, run := ExtendFifoRun(refs[..i], k, run, refs[i], frames[..]);
      assert served == refs[..i + 1];
      if fault {
        pageFault := pageFault + 1;
      }
    }
    assert refs[..|refs|] == refs;
    if PageNumbers(refs) {
      FifoIsTheQueue(refs, k, run, |refs|);
    }
  }
}
