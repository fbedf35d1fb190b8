/**
  The part of the page-replacement simulator that its four methods share: a frame array
  filled from the left, a scan that stops at a hit or at the first free frame, and
  otherwise the replacement of a victim that the method chooses.
 */
module Frames {
  import opened Basics
  import opened Schedules

  /** How the scan over the frames ends. */
  datatype Outcome = Hit(frame: nat) | Fill(frame: nat) | Miss

  /** The scan: the first frame that holds the page or is free (negative) decides. */
  function Scan(frames: seq<int>, page: int, j: nat): (o: Outcome)
    requires j <= |frames|
    ensures !o.Miss? ==> j <= o.frame < |frames|
    decreases |frames| - j
  {
    if j == |frames| then Miss
    else if frames[j] == page then Hit(j)
    else if frames[j] < 0 then Fill(j)
    else Scan(frames, page, j + 1)
  }

  /** The frames after one reference, when `victim` is the frame given up on a miss. */
  function Serve(frames: seq<int>, page: int, victim: nat): (after: seq<int>)
    requires victim < |frames|
    ensures |after| == |frames|
  {
    match Scan(frames, page, 0)
    case Hit(j) => frames
    case Fill(j) => frames[j := page]
    case Miss => frames[victim := page]
  }

  /** A whole run: the frames before every reference and after the last, and the victims. */
  datatype Run = Run(frames: seq<seq<int>>, victims: seq<nat>)

  function Empty(k: nat): (frames: seq<int>)
    ensures |frames| == k
  {
    seq(k, _ => -1)
  }

  ghost predicate Serves(before: seq<int>, page: int, victim: nat, after: seq<int>, k: nat) {
    && |before| == k
    && victim < k
    && after == Serve(before, page, victim)
  }

  /** The first `n` references have been served on demand, starting from free frames. */
  ghost predicate IsRun(refs: seq<int>, k: nat, r: Run) {
    && |r.frames| == |refs| + 1
    && |r.victims| == |refs|
    && r.frames[0] == Empty(k)
    && forall i | 0 <= i < |refs| :: Serves(r.frames[i], refs[i], r.victims[i], r.frames[i + 1], k)
  }

  lemma {:induction false} RunKeepsFrameCount(refs: seq<int>, k: nat, r: Run, i: nat)
    requires IsRun(refs, k, r) && i <= |refs|
    ensures |r.frames[i]| == k
  {
    if i > 0 {
      assert Serves(r.frames[i - 1], refs[i - 1], r.victims[i - 1], r.frames[i], k);
    }
  }

  lemma ExtendRun(refs: seq<int>, k: nat, r: Run, page: int, victim: nat, after: seq<int>)
    requires IsRun(refs, k, r)
    requires Serves(r.frames[|refs|], page, victim, after, k)
    ensures IsRun(refs + [page], k, Run(r.frames + [after], r.victims + [victim]))
  {
    var refs', r' := refs + [page], Run(r.frames + [after], r.victims + [victim]);
    forall i | 0 <= i < |refs'|
      ensures Serves(r'.frames[i], refs'[i], r'.victims[i], r'.frames[i + 1], k)
    {
      if i < |refs| {
        assert Serves(r.frames[i], refs[i], r.victims[i], r.frames[i + 1], k);
      }
    }
  }

  /** The fault counter of the simulator: every reference that is not a hit. */
  ghost function Counted(refs: seq<int>, r: Run, n: nat): nat
    requires n <= |refs| < |r.frames|
    decreases n
  {
    if n == 0 then 0
    else Counted(refs, r, n - 1) + if Scan(r.frames[n - 1], refs[n - 1], 0).Hit? then 0 else 1
  }

  lemma {:induction false} CountedExtend(refs: seq<int>, r: Run, page: int, after: seq<int>, victim: nat, n: nat)
    requires |r.frames| == |refs| + 1 && n <= |refs|
    ensures Counted(refs + [page], Run(r.frames + [after], r.victims + [victim]), n) == Counted(refs, r, n)
    decreases n
  {
    if n > 0 {
      CountedExtend(refs, r, page, after, victim, n - 1);
    }
  }

  /** A run that hits wherever another does faults no more often. */
  lemma {:induction false} FewerFaults(refs: seq<int>, r: Run, r': Run, n: nat)
    requires n <= |refs| < |r.frames| && |refs| < |r'.frames|
    requires forall i | 0 <= i < n && Scan(r.frames[i], refs[i], 0).Hit? :: Scan(r'.frames[i], refs[i], 0).Hit?
    ensures Counted(refs, r', n) <= Counted(refs, r, n)
    decreases n
  {
    hide Scan;
    if n > 0 {
      FewerFaults(refs, r, r', n - 1);
    }
  }

  // ----- the resident sets of a run -----

  ghost function Resident(frames: seq<int>): set<int> {
    set j | 0 <= j < |frames| && frames[j] >= 0 :: frames[j]
  }

  ghost function Residents(r: Run): (s: seq<set<int>>)
    ensures |s| == |r.frames|
    ensures forall i | 0 <= i < |s| :: s[i] == Resident(r.frames[i])
  {
    seq(|r.frames|, i requires 0 <= i < |r.frames| => Resident(r.frames[i]))
  }

  ghost predicate PageNumbers(refs: seq<int>) {
    forall i | 0 <= i < |refs| :: refs[i] >= 0
  }

  /** The first `m` frames hold distinct pages, the rest are free. */
  ghost predicate Packed(frames: seq<int>, m: nat) {
    && m <= |frames|
    && (forall j | 0 <= j < m :: frames[j] >= 0)
    && (forall i, j | 0 <= i < j < m :: frames[i] != frames[j])
    && (forall j | m <= j < |frames| :: frames[j] == -1)
  }

  lemma {:induction false} DistinctCount(s: seq<int>)
    requires Distinct(s)
    ensures |set x | x in s| == |s|
  {
    if s != [] {
      var n := |s| - 1;
      DistinctCount(s[..n]);
      assert s[n] !in s[..n];
      assert (set x | x in s) == (set x | x in s[..n]) + {s[n]};
    }
  }

  lemma PackedCount(frames: seq<int>, m: nat)
    requires Packed(frames, m)
    ensures |Resident(frames)| == m
  {
    DistinctCount(frames[..m]);
    assert Resident(frames) == set x | x in frames[..m];
  }

  /** What the scan finds in a packed frame array. */
  lemma {:induction false} ScanPacked(frames: seq<int>, m: nat, page: int, j: nat)
    requires Packed(frames, m) && page >= 0 && j <= m
    requires forall i | 0 <= i < j :: frames[i] != page
    ensures var o := Scan(frames, page, j);
      && (o.Hit? <==> page in Resident(frames))
      && (o.Hit? ==> o.frame < m && frames[o.frame] == page)
      && (o.Fill? ==> o.frame == m)
      && (o.Miss? ==> m == |frames|)
    decreases |frames| - j
  {
    if j < m {
      if frames[j] != page {
        ScanPacked(frames, m, page, j + 1);
      }
    }
  }

  /** One reference keeps the array packed and moves the resident set as a schedule may. */
  lemma ServePacked(frames: seq<int>, m: nat, page: int, victim: nat)
    returns (m': nat)
    requires Packed(frames, m) && page >= 0 && victim < |frames|
    ensures var after := Serve(frames, page, victim);
      && Packed(after, m')
      && m <= m'
      && (Scan(frames, page, 0).Hit? <==> page in Resident(frames))
      && Moves(Resident(frames), page, Resident(after), |frames|)
      && (Scan(frames, page, 0).Fill? ==>
            m < |frames| && m' == m + 1 && Scan(frames, page, 0).frame == m && Resident(after) == Resident(frames) + {page})
      && (Scan(frames, page, 0).Miss? ==>
            m == |frames| && Resident(after) == Resident(frames) - {frames[victim]} + {page})
  {
    ScanPacked(frames, m, page, 0);
    PackedCount(frames, m);
    match Scan(frames, page, 0)
    case Hit(_) =>
      m' := m;
    case Fill(j) =>
      m' := m + 1;
      FillPacked(frames, m, page);
    case Miss =>
      m' := m;
      ReplacePacked(frames, page, victim);
  }

  lemma FillKeepsPacked(frames: seq<int>, m: nat, page: int)
    requires Packed(frames, m) && m < |frames| && page >= 0
    requires forall j | 0 <= j < |frames| :: frames[j] != page
    ensures Packed(frames[m := page], m + 1)
  {
  }

  lemma FillPacked(frames: seq<int>, m: nat, page: int)
    requires Packed(frames, m) && m < |frames| && page >= 0 && page !in Resident(frames)
    ensures Packed(frames[m := page], m + 1)
    ensures Resident(frames[m := page]) == Resident(frames) + {page}
    ensures |Resident(frames[m := page])| == m + 1
  {
    assert frames[m] == -1 && -1 !in Resident(frames);
    AbsentFromFrames(frames, page);
    FillKeepsPacked(frames, m, page);
    PackedCount(frames[m := page], m + 1);
    hide Packed, Resident;
    ReplaceInFrames(frames, m, page);
  }

  lemma ReplacePacked(frames: seq<int>, page: int, victim: nat)
    requires Packed(frames, |frames|) && victim < |frames| && page >= 0 && page !in Resident(frames)
    ensures Packed(frames[victim := page], |frames|)
    ensures Resident(frames[victim := page]) == Resident(frames) - {frames[victim]} + {page}
    ensures |Resident(frames[victim := page])| == |frames|
  {
    AbsentFromFrames(frames, page);
    ReplaceInFrames(frames, victim, page);
    PackedCount(frames[victim := page], |frames|);
  }

  lemma AbsentFromFrames(frames: seq<int>, page: int)
    requires page >= 0 && page !in Resident(frames)
    ensures forall j | 0 <= j < |frames| :: frames[j] != page
  {
    forall j | 0 <= j < |frames| ensures frames[j] != page {
      assert frames[j] >= 0 ==> frames[j] in Resident(frames);
    }
  }

  lemma ReplaceInFrames(frames: seq<int>, j: nat, page: int)
    requires j < |frames| && page >= 0
    requires frames[j] < 0 || forall i | 0 <= i < |frames| && i != j :: frames[i] != frames[j]
    ensures Resident(frames[j := page]) == Resident(frames) - {frames[j]} + {page}
  {
    var after := frames[j := page];
    forall x | x in Resident(frames) - {frames[j]} + {page} ensures x in Resident(after) {
      if x == page {
        assert after[j] == page;
      } else {
        var i :| 0 <= i < |frames| && frames[i] >= 0 && frames[i] == x;
        assert after[i] == x;
      }
    }
    forall x | x in Resident(after) ensures x in Resident(frames) - {frames[j]} + {page} {
      var i :| 0 <= i < |after| && after[i] >= 0 && after[i] == x;
      if i != j {
        assert frames[i] == x;
      }
    }
  }

  /** At every moment of a run on page numbers the array is packed. */
  lemma {:induction false} RunPacked(refs: seq<int>, k: nat, r: Run, i: nat) returns (m: nat)
    requires IsRun(refs, k, r) && PageNumbers(refs) && i <= |refs|
    ensures Packed(r.frames[i], m) && |r.frames[i]| == k
    decreases i
  {
    if i == 0 {
      m := 0;
    } else {
      var n := RunPacked(refs, k, r, i - 1);
      assert Serves(r.frames[i - 1], refs[i - 1], r.victims[i - 1], r.frames[i], k);
      m := ServePacked(r.frames[i - 1], n, refs[i - 1], r.victims[i - 1]);
    }
  }

  lemma HitIsResident(refs: seq<int>, k: nat, r: Run, i: nat)
    requires IsRun(refs, k, r) && PageNumbers(refs) && i < |refs|
    ensures Scan(r.frames[i], refs[i], 0).Hit? <==> refs[i] in Resident(r.frames[i])
  {
    var m := RunPacked(refs, k, r, i);
    hide Serves;
    ScanPacked(r.frames[i], m, refs[i], 0);
  }

  lemma ResidentCount(refs: seq<int>, k: nat, r: Run, i: nat)
    requires IsRun(refs, k, r) && PageNumbers(refs) && i <= |refs|
    ensures |Resident(r.frames[i])| <= k
  {
    hide Serves, Resident;
    var m := RunPacked(refs, k, r, i);
    PackedCount(r.frames[i], m);
  }

  /** Every simulated method is a demand-paging schedule, whichever victims it picks. */
  lemma RunIsSchedule(refs: seq<int>, k: nat, r: Run)
    requires IsRun(refs, k, r) && PageNumbers(refs)
    ensures IsSchedule(refs, k, Residents(r))
  {
    assert Resident(Empty(k)) == {};
    forall i | 0 <= i < |refs| ensures Moves(Residents(r)[i], refs[i], Residents(r)[i + 1], k) {
      assert Serves(r.frames[i], refs[i], r.victims[i], r.frames[i + 1], k);
      var m := RunPacked(refs, k, r, i);
      var _ := ServePacked(r.frames[i], m, refs[i], r.victims[i]);
    }
  }

  /** ... and its fault counter counts exactly the absent references. */
  lemma {:induction false} CountedIsCost(refs: seq<int>, k: nat, r: Run, n: nat)
    requires IsRun(refs, k, r) && PageNumbers(refs) && n <= |refs|
    ensures Counted(refs, r, n) == Faults(refs, Residents(r), 0, n)
    decreases n
  {
    if n > 0 {
      hide Serves, Scan, Resident;
      CountedIsCost(refs, k, r, n - 1);
      HitIsResident(refs, k, r, n - 1);
    }
  }

  // ----- the loop that all four methods start with -----

  /** The scan loop: reports a hit, fills the first free frame, or leaves the frames alone. */
  method ScanFrames(frames: array<int>, page: int) returns (outcome: Outcome)
    modifies frames
    ensures outcome == Scan(old(frames[..]), page, 0)
    ensures frames[..] == if outcome.Fill? then old(frames[..])[outcome.frame := page] else old(frames[..])
    ensures var n := if outcome.Miss? then frames.Length else outcome.frame;
      n <= frames.Length && forall j | 0 <= j < n :: old(frames[j]) != page && old(frames[j]) >= 0
    ensures outcome.Hit? ==> outcome.frame < frames.Length && old(frames[..])[outcome.frame] == page
    ensures outcome.Fill? ==> outcome.frame < frames.Length && old(frames[..])[outcome.frame] != page && old(frames[..])[outcome.frame] < 0
  {
    ghost var before := frames[..];
    for j := 0 to frames.Length
      invariant frames[..] == before
      invariant Scan(before, page, 0) == Scan(before, page, j)
      invariant forall m | 0 <= m < j :: before[m] != page && before[m] >= 0
    {
      if frames[j] == page {
        return Hit(j);
      }
      if frames[j] < 0 {
        frames[j] := page;
        return Fill(j);
      }
    }
    return Miss;
  }
}
