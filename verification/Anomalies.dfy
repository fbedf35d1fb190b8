/**
  Does one more frame ever cost faults? Not for OPT and LRU. For FIFO it does from three frames on,
  and only then; for Second-Chance from two frames on, and only then.
 */
module Anomalies {
  import opened Basics
  import opened Schedules
  import opened Frames
  import opened Fifo
  import opened SecondChance
  import opened SecondChanceBound
  import opened SecondChanceWorst

  // ----- one frame -----

  /** With one frame only a repeated page hits, and that hits whatever the method and the number of frames. */
  lemma RepeatsHit(refs: seq<int>, r: Run, k: nat, r': Run, i: nat)
    requires IsRun(refs, 1, r) && IsRun(refs, k, r') && PageNumbers(refs) && i < |refs|
    requires Scan(r.frames[i], refs[i], 0).Hit?
    ensures Scan(r'.frames[i], refs[i], 0).Hit?
  {
    hide Serves, Scan, Resident;
    RunIsSchedule(refs, 1, r);
    RunIsSchedule(refs, k, r');
    HitIsResident(refs, 1, r, i);
    HitIsResident(refs, k, r', i);
    ResidentCount(refs, 1, r, i);
    assert Residents(r)[i] == Resident(r.frames[i]) && Residents(r')[i] == Resident(r'.frames[i]);
    if i > 0 {
      assert Moves(Residents(r)[i - 1], refs[i - 1], Residents(r)[i], 1);
      assert Moves(Residents(r')[i - 1], refs[i - 1], Residents(r')[i], k);
      Subset({refs[i - 1], refs[i]}, Residents(r)[i]);
    }
  }

  lemma OneFrameIsWorst(refs: seq<int>, r: Run, k: nat, r': Run)
    requires IsRun(refs, 1, r) && IsRun(refs, k, r') && PageNumbers(refs)
    ensures Counted(refs, r', |refs|) <= Counted(refs, r, |refs|)
  {
    hide Scan, Serves, Counted;
    forall i | 0 <= i < |refs| && Scan(r.frames[i], refs[i], 0).Hit? ensures Scan(r'.frames[i], refs[i], 0).Hit? {
      RepeatsHit(refs, r, k, r', i);
    }
    FewerFaults(refs, r, r', |refs|);
  }

  // ----- FIFO: serving a list -----

  /** The loads of FIFO after it has also served `ps`. */
  function Fed(q: seq<int>, k: nat, ps: seq<int>): seq<int>
    decreases |ps|
  {
    if ps == [] then q
    else
      var q' := Fed(q, k, ps[..|ps| - 1]);
      if ps[|ps| - 1] in Window(q', k) then q' else q' + [ps[|ps| - 1]]
  }

  lemma {:induction false} LoadsAreFed(refs: seq<int>, k: nat, n: nat)
    requires n <= |refs|
    ensures Loads(refs, k, n) == Fed([], k, refs[..n])
    decreases n
  {
    if n > 0 {
      LoadsAreFed(refs, k, n - 1);
      assert refs[..n][..n - 1] == refs[..n - 1];
    }
  }

  lemma {:induction false} FedConcat(q: seq<int>, k: nat, a: seq<int>, b: seq<int>)
    ensures Fed(q, k, a + b) == Fed(Fed(q, k, a), k, b)
    decreases |b|
  {
    hide Window;
    if b == [] {
      assert a + b == a;
    } else {
      FedConcat(q, k, a, b[..|b| - 1]);
      assert (a + b)[..|a + b| - 1] == a + b[..|b| - 1];
    }
  }

  /** `x` is not among the last `k` of `q`. */
  ghost predicate Absent(q: seq<int>, k: nat, x: int) {
    forall j | 0 <= j < |q| && |q| <= j + k :: q[j] != x
  }

  lemma AbsentFromWindow(q: seq<int>, k: nat, x: int)
    ensures x in Window(q, k) <==> !Absent(q, k, x)
  {
    if !Absent(q, k, x) && |q| > k {
      var j :| 0 <= j < |q| && |q| <= j + k && q[j] == x;
      assert Window(q, k)[j - (|q| - k)] == x;
    }
  }

  lemma FedOne(q: seq<int>, k: nat, x: int)
    ensures Fed(q, k, [x]) == if Absent(q, k, x) then q + [x] else q
  {
    hide Absent;
    AbsentFromWindow(q, k, x);
    assert [x][..0] == [] && Fed(q, k, []) == q;
  }

  lemma {:induction false} FedNew(q: seq<int>, k: nat, ps: seq<int>)
    requires forall n | 0 <= n < |ps| :: Absent(q + ps[..n], k, ps[n])
    ensures Fed(q, k, ps) == q + ps
    decreases |ps|
  {
    if ps == [] {
      assert q + ps == q;
    } else {
      hide Absent, Fed;
      var n := |ps| - 1;
      assert ps == ps[..n] + [ps[n]];
      FedConcat(q, k, ps[..n], [ps[n]]);
      forall m | 0 <= m < n ensures Absent(q + ps[..n][..m], k, ps[..n][m]) {
        assert ps[..n][..m] == ps[..m];
      }
      FedNew(q, k, ps[..n]);
      FedOne(q + ps[..n], k, ps[n]);
      assert (q + ps[..n]) + [ps[n]] == q + ps;
    }
  }

  lemma {:induction false} FedOld(q: seq<int>, k: nat, ps: seq<int>)
    requires forall n | 0 <= n < |ps| :: !Absent(q, k, ps[n])
    ensures Fed(q, k, ps) == q
    decreases |ps|
  {
    if ps != [] {
      hide Absent, Window;
      var n := |ps| - 1;
      FedOld(q, k, ps[..n]);
      AbsentFromWindow(q, k, ps[n]);
    }
  }

  // ----- FIFO: from three frames on -----

  function Upto(n: nat): (ps: seq<int>)
    ensures |ps| == n
    ensures forall i | 0 <= i < n :: ps[i] == i
  {
    seq(n, i requires 0 <= i < n => i)
  }

  /** The string on which one more frame costs one more fault; for three frames it has 12 references. */
  function Belady(k: nat): seq<int>
    requires k >= 3
  {
    Upto(k + 1) + Upto(k - 1) + [k + 1] + Upto(k - 1) + [k - 1, k] + [k + 1]
  }

  lemma FedPieces(k: nat, frames: nat)
    requires k >= 3
    ensures var q1 := Fed([], frames, Upto(k + 1)); var q2 := Fed(q1, frames, Upto(k - 1)); var q3 := Fed(q2, frames, [k + 1]);
      Fed([], frames, Belady(k)) == Fed(Fed(Fed(q3, frames, Upto(k - 1)), frames, [k - 1, k]), frames, [k + 1])
  {
    hide Fed;
    var a, b, c, e := Upto(k + 1), Upto(k - 1), [k + 1], [k - 1, k];
    FedConcat([], frames, a + b + c + b + e, c);
    FedConcat([], frames, a + b + c + b, e);
    FedConcat([], frames, a + b + c, b);
    FedConcat([], frames, a + b, c);
    FedConcat([], frames, a, b);
  }

  lemma StartsNew(k: nat, n: nat)
    ensures Fed([], k, Upto(n)) == Upto(n)
  {
    forall i | 0 <= i < n ensures Absent([] + Upto(n)[..i], k, Upto(n)[i]) {
    }
    FedNew([], k, Upto(n));
    assert [] + Upto(n) == Upto(n);
  }

  lemma WithFewer(k: nat)
    requires k >= 3
    ensures |Fed([], k, Belady(k))| == 2 * k + 3
  {
    hide Fed, Belady;
    FedPieces(k, k);
    StartsNew(k, k + 1);
    var q1, b := Upto(k + 1), Upto(k - 1);
    forall i | 0 <= i < k - 1 ensures Absent(q1 + b[..i], k, b[i]) {
    }
    FedNew(q1, k, b);
    var q2 := q1 + b;
    assert [k + 1][..0] == [] && q2 + [] == q2;
    FedNew(q2, k, [k + 1]);
    var q3 := q2 + [k + 1];
    forall i | 0 <= i < k - 1 ensures !Absent(q3, k, b[i]) {
      assert q3[k + 1 + i] == b[i];
    }
    FedOld(q3, k, b);
    FewerEnd(k, q3);
  }

  lemma FewerEnd(k: nat, q3: seq<int>)
    requires k >= 3 && q3 == Upto(k + 1) + Upto(k - 1) + [k + 1]
    ensures |Fed(Fed(q3, k, [k - 1, k]), k, [k + 1])| == 2 * k + 3
  {
    hide Fed;
    var e := [k - 1, k];
    assert e[..0] == [] && e[..1] == [k - 1] && q3 + [] == q3;
    assert Absent(q3, k, k - 1) && Absent(q3 + [k - 1], k, k);
    FedNew(q3, k, e);
    var q4 := q3 + e;
    assert q4[2 * k] == k + 1;
    FedOld(q4, k, [k + 1]);
  }

  lemma WithMore(k: nat)
    requires k >= 3
    ensures |Fed([], k + 1, Belady(k))| == 2 * k + 4
  {
    hide Fed, Belady;
    FedPieces(k, k + 1);
    StartsNew(k + 1, k + 1);
    var q1, b := Upto(k + 1), Upto(k - 1);
    forall i | 0 <= i < k - 1 ensures !Absent(q1, k + 1, b[i]) {
      assert q1[i] == b[i];
    }
    FedOld(q1, k + 1, b);
    assert [k + 1][..0] == [] && q1 + [] == q1;
    FedNew(q1, k + 1, [k + 1]);
    var q3 := q1 + [k + 1];
    forall i | 0 <= i < k - 1 ensures Absent(q3 + b[..i], k + 1, b[i]) {
    }
    FedNew(q3, k + 1, b);
    MoreEnd(k, q3 + b);
  }

  lemma MoreEnd(k: nat, q4: seq<int>)
    requires k >= 3 && q4 == Upto(k + 1) + [k + 1] + Upto(k - 1)
    ensures |Fed(Fed(q4, k + 1, [k - 1, k]), k + 1, [k + 1])| == 2 * k + 4
  {
    hide Fed;
    var e := [k - 1, k];
    assert e[..0] == [] && e[..1] == [k - 1] && q4 + [] == q4;
    assert Absent(q4, k + 1, k - 1) && Absent(q4 + [k - 1], k + 1, k);
    FedNew(q4, k + 1, e);
    var q5 := q4 + e;
    assert [k + 1][..0] == [] && q5 + [] == q5;
    assert Absent(q5, k + 1, k + 1);
    FedNew(q5, k + 1, [k + 1]);
  }

  // ----- FIFO: two frames against three -----

  function Pushed(w: seq<int>, k: nat, p: int): seq<int>
    requires k >= 1
  {
    if p in w then w else if |w| < k then w + [p] else w[1..] + [p]
  }

  lemma WindowPushed(q: seq<int>, k: nat, p: int)
    requires k >= 1
    ensures Window(if p in Window(q, k) then q else q + [p], k) == Pushed(Window(q, k), k, p)
  {
    if p !in Window(q, k) && |q| >= k {
      assert (q + [p])[|q| + 1 - k..] == q[|q| + 1 - k..] + [p];
      assert Window(q, k)[1..] == q[|q| - k..][1..] == q[|q| - k + 1..];
    }
  }

  /** What two and three frames can hold at the same time: once both are full the newest page is in both, ... */
  predicate Together(a: seq<int>, b: seq<int>) {
    if |a| < 2 then b == a
    else
      && |a| == 2 && a[0] != a[1]
      && (b == a
          || (|b| == 3 && b[0] != b[1] && b[1] != b[2] && b[0] != b[2]
              && a[1] in b && (a[0] !in b ==> b[2] == a[1])))
  }

  /** ... and the three frames are a fault behind when theirs is next to go or the older page is gone. */
  function Behind(a: seq<int>, b: seq<int>): nat {
    if |a| == 2 && |b| == 3 && (b[0] == a[1] || a[0] !in b) then 1 else 0
  }

  lemma PushedTogether(a: seq<int>, b: seq<int>, p: int)
    requires Together(a, b)
    ensures var a', b' := Pushed(a, 2, p), Pushed(b, 3, p);
      Together(a', b') && One(p !in b) + Behind(a', b') <= One(p !in a) + Behind(a, b)
  {
  }

  lemma {:induction false} TwoAgainstThree(refs: seq<int>, n: nat)
    requires n <= |refs|
    ensures var q, q' := Loads(refs, 2, n), Loads(refs, 3, n);
      Together(Window(q, 2), Window(q', 3)) && |q'| + Behind(Window(q, 2), Window(q', 3)) <= |q|
    decreases n
  {
    hide Window, Together, Behind, Pushed;
    if n == 0 {
      NothingYet();
    } else {
      TwoAgainstThree(refs, n - 1);
      var q, q' := Loads(refs, 2, n - 1), Loads(refs, 3, n - 1);
      WindowPushed(q, 2, refs[n - 1]);
      WindowPushed(q', 3, refs[n - 1]);
      PushedTogether(Window(q, 2), Window(q', 3), refs[n - 1]);
      InPushed(q, 2, refs[n - 1]);
      InPushed(q', 3, refs[n - 1]);
    }
  }

  lemma NothingYet()
    ensures Together(Window([], 2), Window([], 3)) && Behind(Window([], 2), Window([], 3)) == 0
  {
  }

  lemma InPushed(q: seq<int>, k: nat, p: int)
    ensures |if p in Window(q, k) then q else q + [p]| == |q| + One(p !in Window(q, k))
  {
  }

  // ----- FIFO: exactly when -----

  lemma {:induction false} FifoRunExists(refs: seq<int>, k: nat) returns (r: Run)
    requires k >= 1
    ensures IsFifoRun(refs, k, r) && HandAt(refs, k, r.frames, |refs|) < k
    decreases |refs|
  {
    if refs == [] {
      FreshIsFifo(k);
      r := Run([Empty(k)], []);
    } else {
      var n := |refs| - 1;
      var r0 := FifoRunExists(refs[..n], k);
      RunKeepsFrameCount(refs[..n], k, r0, n);
      var hand := HandAt(refs[..n], k, r0.frames, n);
      var refs';
      refs', r := ExtendFifoRun(refs[..n], k, r0, refs[n], Serve(r0.frames[n], refs[n], hand));
      assert refs' == refs;
    }
  }

  /** On no string does FIFO fault more often with `k'` frames than with `k`. */
  ghost predicate FifoMonotone(k: nat, k': nat) {
    forall refs, r, r' | PageNumbers(refs) && IsFifoRun(refs, k, r) && IsFifoRun(refs, k', r') ::
      Counted(refs, r', |refs|) <= Counted(refs, r, |refs|)
  }

  lemma FifoCounts(refs: seq<int>, k: nat, r: Run)
    requires k >= 1 && PageNumbers(refs) && IsFifoRun(refs, k, r)
    ensures Counted(refs, r, |refs|) == |Fed([], k, refs)|
  {
    hide Fed, Loads, Counted, Resident, Window, IsFifoRun;
    FifoIsTheQueue(refs, k, r, |refs|);
    LoadsAreFed(refs, k, |refs|);
    assert refs[..|refs|] == refs;
  }

  lemma FifoAnomaly(k: nat)
    requires k >= 3
    ensures !FifoMonotone(k, k + 1)
  {
    hide Serves, HandAt, Counted, Fed;
    var refs := Belady(k);
    assert PageNumbers(refs);
    hide Belady, PageNumbers;
    var r := FifoRunExists(refs, k);
    var r' := FifoRunExists(refs, k + 1);
    FifoCounts(refs, k, r);
    FifoCounts(refs, k + 1, r');
    WithFewer(k);
    WithMore(k);
    NotMonotone(refs, k, r, r');
  }

  lemma NotMonotone(refs: seq<int>, k: nat, r: Run, r': Run)
    requires PageNumbers(refs) && IsFifoRun(refs, k, r) && IsFifoRun(refs, k + 1, r')
    requires |r.frames| == |r'.frames| == |refs| + 1
    requires Counted(refs, r', |refs|) > Counted(refs, r, |refs|)
    ensures !FifoMonotone(k, k + 1)
  {
  }

  /** FIFO can only lose by another frame if it has three already. */
  lemma FifoMonotoneUpToTwo(k: nat)
    requires k >= 1
    ensures FifoMonotone(k, k + 1) <==> k <= 2
  {
    if k <= 2 {
      var k' := k + 1;
      forall refs, r, r' | PageNumbers(refs) && IsFifoRun(refs, k, r) && IsFifoRun(refs, k', r')
        ensures Counted(refs, r', |refs|) <= Counted(refs, r, |refs|)
      {
        if k == 1 {
          OneFrameIsWorst(refs, r, 2, r');
        } else {
          FifoIsTheQueue(refs, 2, r, |refs|);
          FifoIsTheQueue(refs, 3, r', |refs|);
          TwoAgainstThree(refs, |refs|);
        }
      }
    } else {
      FifoAnomaly(k);
    }
  }

  // ----- Second-Chance -----

  /** Pages 0..n-1, each asked for twice. */
  function Twice(n: nat): (ps: seq<int>)
    ensures forall i | 0 <= i < |ps| :: 0 <= ps[i] < n
  {
    if n == 0 then [] else Twice(n - 1) + [n - 1] + [n - 1]
  }

  /** ... and then two more pages and the first of them again. */
  function Twins(k: nat): seq<int>
    requires k >= 2
  {
    Twice(k) + [k] + [k + 1] + [k]
  }

  /** Entries for pages 0..n-1, all with the same bit. */
  function Entries(n: nat, bit: int): (q: seq<Entry>)
    ensures |q| == n
    ensures forall i | 0 <= i < n :: q[i] == Entry(i, bit)
  {
    seq(n, i requires 0 <= i < n => Entry(i, bit))
  }

  lemma {:induction false} TwiceMarks(n: nat, k: nat)
    requires k >= 1 && n <= k
    ensures Served([], k, Twice(n)) == Entries(n, 1) && Missed([], k, Twice(n)) == n
    decreases n
  {
    if n == 0 {
      ServedNone(k);
    } else {
      hide Served, Missed, Queued;
      TwiceMarks(n - 1, k);
      var q, p := Entries(n - 1, 1), n - 1;
      ServedConcat([], k, Twice(n - 1) + [p], [p]);
      ServedConcat([], k, Twice(n - 1), [p]);
      ServedOne(q, k, p);
      ServedOne(q + [Entry(p, 0)], k, p);
      TwinIsMarked(n, q);
    }
  }

  lemma TwinIsMarked(n: nat, q: seq<Entry>)
    requires n >= 1 && q == Entries(n - 1, 1)
    ensures !Queued(q, n - 1) && Queued(q + [Entry(n - 1, 0)], n - 1)
    ensures Mark(q + [Entry(n - 1, 0)], n - 1) == Entries(n, 1)
  {
    var q' := q + [Entry(n - 1, 0)];
    assert q'[n - 1].page == n - 1;
    assert Mark(q', n - 1) == Entries(n, 1);
  }

  /** With all pages marked, the queue gives every one its chance and then evicts the oldest. */
  lemma AllMarked(k: nat)
    requires k >= 1
    ensures Chance(Entries(k, 1), k) == Entries(k, 0)[1..] + [Entry(k, 0)]
  {
    var q := Entries(k, 1);
    ChancePops(q, k);
    ChancePasses(q[1..], [Entry(0, 0)], k);
    assert Requeued(q) == q[1..] + [Entry(0, 0)];
    assert [Entry(0, 0)] + Cleared(q[1..]) == Entries(k, 0);
    ChancePops(Entries(k, 0), k);
  }

  lemma TwinsFewer(k: nat)
    requires k >= 2
    ensures Missed([], k, Twins(k)) == k + 2
  {
    hide Served, Missed, Queued, Chance;
    var ps, q := Twice(k), Entries(k, 1);
    TwiceMarks(k, k);
    ServedConcat([], k, ps + [k] + [k + 1], [k]);
    ServedConcat([], k, ps + [k], [k + 1]);
    ServedConcat([], k, ps, [k]);
    var q1, q2 := Entries(k, 0)[1..] + [Entry(k, 0)], Entries(k, 0)[2..] + [Entry(k, 0)] + [Entry(k + 1, 0)];
    ServedOne(q, k, k);
    AllMarked(k);
    ServedOne(q1, k, k + 1);
    ChancePops(q1, k + 1);
    assert q1[1..] + [Entry(k + 1, 0)] == q2;
    ServedOne(q2, k, k);
    assert !Queued(q, k) && !Queued(q1, k + 1) && Queued(q2, k) by {
      FewerQueued(k);
    }
  }

  lemma FewerQueued(k: nat)
    requires k >= 2
    ensures !Queued(Entries(k, 1), k) && !Queued(Entries(k, 0)[1..] + [Entry(k, 0)], k + 1)
    ensures Queued(Entries(k, 0)[2..] + [Entry(k, 0)] + [Entry(k + 1, 0)], k)
  {
    assert (Entries(k, 0)[2..] + [Entry(k, 0)] + [Entry(k + 1, 0)])[k - 2].page == k;
  }

  lemma TwinsMore(k: nat)
    requires k >= 2
    ensures Missed([], k + 1, Twins(k)) == k + 3
  {
    hide Served, Missed, Queued, Chance;
    var ps, q := Twice(k), Entries(k, 1);
    TwiceMarks(k, k + 1);
    ServedConcat([], k + 1, ps + [k] + [k + 1], [k]);
    ServedConcat([], k + 1, ps + [k], [k + 1]);
    ServedConcat([], k + 1, ps, [k]);
    var q1, q2 := q + [Entry(k, 0)], Entries(k, 0) + [Entry(k + 1, 0)];
    ServedOne(q, k + 1, k);
    ServedOne(q1, k + 1, k + 1);
    ChancePasses(q, [Entry(k, 0)], k + 1);
    assert Cleared(q) == Entries(k, 0);
    ChancePops([Entry(k, 0)] + Cleared(q), k + 1);
    assert ([Entry(k, 0)] + Cleared(q))[1..] == Cleared(q);
    ServedOne(q2, k + 1, k);
    assert !Queued(q, k) && !Queued(q1, k + 1) && !Queued(q2, k) by {
      MoreQueued(k);
    }
  }

  lemma MoreQueued(k: nat)
    ensures !Queued(Entries(k, 1), k) && !Queued(Entries(k, 1) + [Entry(k, 0)], k + 1)
    ensures !Queued(Entries(k, 0) + [Entry(k + 1, 0)], k)
  {
  }

  /** On no string does Second-Chance fault more often with `k'` frames than with `k`. */
  ghost predicate SecondChanceMonotone(k: nat, k': nat) {
    forall refs, r, ss, r', ss' |
      PageNumbers(refs) && IsSecondChanceRun(refs, k, r, ss) && IsSecondChanceRun(refs, k', r', ss') ::
      Counted(refs, r', |refs|) <= Counted(refs, r, |refs|)
  }

  lemma SecondChanceCounts(refs: seq<int>, k: nat, r: Run, ss: seq<State>)
    requires k >= 1 && PageNumbers(refs) && IsSecondChanceRun(refs, k, r, ss)
    ensures Counted(refs, r, |refs|) == Missed([], k, refs)
  {
    hide Missed, Served, Textbook, TextbookFaults, Counted, Represents;
    SecondChanceIsTheQueue(refs, k, r, ss, |refs|);
    ServedIsTextbook(refs, k, |refs|);
    assert refs[..|refs|] == refs;
  }

  lemma SecondChanceAnomaly(k: nat)
    requires k >= 2
    ensures !SecondChanceMonotone(k, k + 1)
  {
    hide Missed, Counted, Step;
    var refs := Twins(k);
    assert PageNumbers(refs);
    var r, ss := RunExists(refs, k);
    var r', ss' := RunExists(refs, k + 1);
    SecondChanceCounts(refs, k, r, ss);
    SecondChanceCounts(refs, k + 1, r', ss');
    TwinsFewer(k);
    TwinsMore(k);
    assert IsSecondChanceRun(refs, k, r, ss) && IsSecondChanceRun(refs, k + 1, r', ss');
  }

  /** Second-Chance can only lose by another frame if it has two already. */
  lemma SecondChanceMonotoneForOneOnly(k: nat)
    requires k >= 1
    ensures SecondChanceMonotone(k, k + 1) <==> k == 1
  {
    if k == 1 {
      var k' := k + 1;
      forall refs, r, ss, r', ss' |
        PageNumbers(refs) && IsSecondChanceRun(refs, k, r, ss) && IsSecondChanceRun(refs, k', r', ss')
        ensures Counted(refs, r', |refs|) <= Counted(refs, r, |refs|)
      {
        OneFrameIsWorst(refs, r, 2, r');
      }
    } else {
      SecondChanceAnomaly(k);
    }
  }
}
