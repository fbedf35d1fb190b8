/**
  The Second-Chance method: two partial sweeps over frames and reference bits, and the
  textbook queue that they implement.
 */
module SecondChance {
  import opened Schedules
  import opened Frames
  import opened Fifo

  datatype Entry = Entry(page: int, bit: int)

  // ----- the textbook queue -----

  function SetBits(q: seq<Entry>): nat {
    if q == [] then 0 else (if q[0].bit == 0 then 0 else 1) + SetBits(q[1..])
  }

  lemma {:induction false} SetBitsAppend(q: seq<Entry>, e: Entry)
    ensures SetBits(q + [e]) == SetBits(q) + if e.bit == 0 then 0 else 1
  {
    if q == [] {
      assert [e][1..] == [];
    } else {
      SetBitsAppend(q[1..], e);
      assert (q + [e])[1..] == q[1..] + [e];
    }
  }

  /**
    Pop the head; if its bit is set, clear the bit and requeue it, else evict it and push the
    new page with its bit clear.
   */
  ghost function Chance(q: seq<Entry>, page: int): (q': seq<Entry>)
    requires q != []
    ensures |q'| == |q|
    decreases SetBits(q)
  {
    if q[0].bit == 0 then q[1..] + [Entry(page, 0)]
    else
      SetBitsAppend(q[1..], Entry(q[0].page, 0));
      Chance(q[1..] + [Entry(q[0].page, 0)], page)
  }

  ghost predicate Queued(q: seq<Entry>, page: int) {
    exists i | 0 <= i < |q| :: q[i].page == page
  }

  ghost function Mark(q: seq<Entry>, page: int): (q': seq<Entry>)
    ensures |q'| == |q|
    ensures forall i | 0 <= i < |q| :: q'[i] == if q[i].page == page then Entry(page, 1) else q[i]
  {
    seq(|q|, i requires 0 <= i < |q| => if q[i].page == page then Entry(page, 1) else q[i])
  }

  /** One reference to the textbook queue: a hit sets the bit, a load starts with it clear. */
  ghost function TextbookStep(q: seq<Entry>, k: nat, page: int): seq<Entry>
    requires k >= 1
  {
    if Queued(q, page) then Mark(q, page)
    else if |q| < k then q + [Entry(page, 0)]
    else Chance(q, page)
  }

  ghost function Textbook(refs: seq<int>, k: nat, n: nat): seq<Entry>
    requires k >= 1 && n <= |refs|
    decreases n
  {
    if n == 0 then [] else TextbookStep(Textbook(refs, k, n - 1), k, refs[n - 1])
  }

  ghost function TextbookFaults(refs: seq<int>, k: nat, n: nat): nat
    requires k >= 1 && n <= |refs|
    decreases n
  {
    if n == 0 then 0
    else TextbookFaults(refs, k, n - 1) + if Queued(Textbook(refs, k, n - 1), refs[n - 1]) then 0 else 1
  }

  // ----- frames, bits and hand -----

  datatype State = State(frames: seq<int>, bits: seq<int>, hand: nat)

  ghost predicate Bits(bits: seq<int>) {
    forall j | 0 <= j < |bits| :: bits[j] == 0 || bits[j] == 1
  }

  ghost predicate Shaped(s: State, k: nat) {
    && |s.frames| == |s.bits| == k
    && s.hand < k
    && Bits(s.bits)
  }

  function Wrap(hand: nat, k: nat): nat {
    if hand == k then 0 else hand
  }

  /** The entries from frame `hand` round to frame `hand`. */
  ghost function Queue(frames: seq<int>, bits: seq<int>, hand: nat): (q: seq<Entry>)
    requires |frames| == |bits| && hand < |frames|
    ensures |q| == |frames|
    ensures forall i | 0 <= i < |q| - hand :: q[i] == Entry(frames[hand + i], bits[hand + i])
    ensures forall i | |q| - hand <= i < |q| :: q[i] == Entry(frames[hand + i - |q|], bits[hand + i - |q|])
  {
    var k := |frames|;
    seq(k, i requires 0 <= i < k =>
      if hand + i < k then Entry(frames[hand + i], bits[hand + i]) else Entry(frames[hand + i - k], bits[hand + i - k]))
  }

  /** Overwriting the head and moving the hand on is popping the head and pushing the new entry. */
  lemma PassHead(frames: seq<int>, bits: seq<int>, hand: nat, page: int, bit: int)
    requires |frames| == |bits| && hand < |frames|
    ensures Queue(frames[hand := page], bits[hand := bit], Wrap(hand + 1, |frames|))
         == Queue(frames, bits, hand)[1..] + [Entry(page, bit)]
  {
  }

  /**
    One partial sweep over the frames `j..hi`: it stops at the first clear bit and clears the bits
    that it passes. The frame it takes is `hi` when there is none.
   */
  function SweepBits(bits: seq<int>, j: nat, hi: nat): (r: (nat, seq<int>))
    requires j <= hi <= |bits|
    ensures |r.1| == |bits| && j <= r.0 <= hi
    ensures r.0 < hi ==> bits[r.0] == 0
    ensures forall i | 0 <= i < |bits| :: r.1[i] == if j <= i < r.0 then 0 else bits[i]
    decreases hi - j
  {
    if j == hi then (hi, bits)
    else if bits[j] == 0 then (j, bits)
    else SweepBits(bits[j := 0], j + 1, hi)
  }

  /**
    From the hand to the last frame, then from frame 0 to the hand; when both find only set bits,
    the frame at the hand is taken.
   */
  function Sweeps(bits: seq<int>, hand: nat): (r: (nat, seq<int>))
    requires hand < |bits|
    ensures r.0 < |bits| == |r.1|
  {
    var (victim, after) := SweepBits(bits, hand, |bits|);
    if victim < |bits| then (victim, after) else SweepBits(after, 0, hand)
  }

  /** The state after a miss has been served, the hand already wrapped. */
  function Replaced(s: State, page: int): State
    requires |s.frames| == |s.bits| && s.hand < |s.frames|
  {
    var (victim, bits) := Sweeps(s.bits, s.hand);
    State(s.frames[victim := page], bits, Wrap(victim + 1, |s.frames|))
  }

  /** One reference as the simulator serves it. */
  ghost predicate Step(s: State, page: int, victim: nat, s': State, k: nat) {
    && Shaped(s, k)
    && match Scan(s.frames, page, 0)
       case Hit(j) => s' == s.(bits := s.bits[j := 1])
       case Fill(j) => s' == s.(frames := s.frames[j := page], bits := s.bits[j := 0])
       case Miss => victim == Sweeps(s.bits, s.hand).0 && s' == Replaced(s, page)
  }

  function Zeros(k: nat): (bits: seq<int>)
    ensures |bits| == k
  {
    seq(k, _ => 0)
  }

  /** A run of Second-Chance, with the bits and the hand before every reference. */
  ghost predicate IsSecondChanceRun(refs: seq<int>, k: nat, r: Run, ss: seq<State>) {
    && IsRun(refs, k, r)
    && |ss| == |refs| + 1
    && ss[0] == State(Empty(k), Zeros(k), 0)
    && (forall i | 0 <= i <= |refs| :: ss[i].frames == r.frames[i])
    && (forall i | 0 <= i < |refs| :: Step(ss[i], refs[i], r.victims[i], ss[i + 1], k))
  }

  // ----- the sweeps are the textbook replacement -----

  /** Visiting one frame is one pop of the queue: evict if the bit is clear, else clear it and requeue. */
  lemma VisitIsPop(frames: seq<int>, bits: seq<int>, j: nat, page: int)
    requires |frames| == |bits| && j < |frames|
    ensures Chance(Queue(frames, bits, j), page)
         == if bits[j] == 0 then Queue(frames[j := page], bits, Wrap(j + 1, |frames|))
            else Chance(Queue(frames, bits[j := 0], Wrap(j + 1, |frames|)), page)
  {
    PassHead(frames, bits, j, page, 0);
    PassHead(frames, bits, j, frames[j], 0);
    assert frames[j := frames[j]] == frames;
    assert bits[j] == 0 ==> bits[j := 0] == bits;
  }

  lemma {:induction false} SweepIsChance(frames: seq<int>, bits: seq<int>, j: nat, hi: nat, page: int)
    requires |frames| == |bits| && j <= hi <= |frames| && j < |frames|
    ensures var (victim, after) := SweepBits(bits, j, hi);
      Chance(Queue(frames, bits, j), page)
      == if victim < hi then Queue(frames[victim := page], after, Wrap(victim + 1, |frames|))
         else Chance(Queue(frames, after, Wrap(hi, |frames|)), page)
    decreases hi - j
  {
    hide Queue, Chance;
    if j < hi {
      VisitIsPop(frames, bits, j, page);
      if bits[j] != 0 && j + 1 < |frames| {
        SweepIsChance(frames, bits[j := 0], j + 1, hi, page);
      }
    }
  }

  /** Both partial sweeps and the fallback together are one textbook replacement, in every state. */
  lemma SweepsAreChance(s: State, page: int)
    requires |s.frames| == |s.bits| && s.hand < |s.frames|
    ensures var s' := Replaced(s, page);
      |s'.frames| == |s'.bits| == |s.frames| && s'.hand < |s.frames|
      && Queue(s'.frames, s'.bits, s'.hand) == Chance(Queue(s.frames, s.bits, s.hand), page)
  {
    hide Queue, Chance;
    var k := |s.frames|;
    SweepIsChance(s.frames, s.bits, s.hand, k, page);
    var (victim, after) := SweepBits(s.bits, s.hand, k);
    if victim == k {
      SweepIsChance(s.frames, after, 0, s.hand, page);
      var (victim', after') := SweepBits(after, 0, s.hand);
      if victim' == s.hand {
        VisitIsPop(s.frames, after', s.hand, page);
      }
    }
  }

  /** The sweeps only clear bits. */
  lemma ReplacedShaped(s: State, k: nat, page: int)
    requires Shaped(s, k)
    ensures Shaped(Replaced(s, page), k)
  {
  }

  // ----- the array state is the queue -----

  /** While frames are free the queue is read from frame 0, afterwards from the hand. */
  ghost predicate Represents(s: State, q: seq<Entry>, k: nat) {
    && Shaped(s, k)
    && |q| <= k
    && if |q| < k then
         && s.hand == 0
         && (forall j | 0 <= j < |q| :: q[j] == Entry(s.frames[j], s.bits[j]) && s.frames[j] >= 0)
         && (forall j | |q| <= j < k :: s.frames[j] == -1)
       else
         && q == Queue(s.frames, s.bits, s.hand)
         && (forall j | 0 <= j < k :: s.frames[j] >= 0)
  }

  lemma RepresentsCount(s: State, m: nat, q: seq<Entry>, k: nat)
    requires Represents(s, q, k) && Packed(s.frames, m)
    ensures m == |q|
  {
    assert m < k ==> s.frames[m] == -1;
    assert |q| < k ==> s.frames[|q|] == -1;
  }

  lemma RepresentsMembers(s: State, q: seq<Entry>, k: nat, page: int)
    requires Represents(s, q, k) && page >= 0
    ensures Queued(q, page) <==> page in Resident(s.frames)
  {
    if page in Resident(s.frames) {
      var j :| 0 <= j < k && s.frames[j] == page;
      if |q| == k {
        var i := if j >= s.hand then j - s.hand else j - s.hand + k;
        assert q[i].page == page;
      } else {
        assert q[j].page == page;
      }
    }
  }

  lemma RepresentsHit(s: State, m: nat, q: seq<Entry>, k: nat, j: nat)
    requires Represents(s, q, k) && Packed(s.frames, m) && m == |q| && j < m
    ensures Represents(s.(bits := s.bits[j := 1]), Mark(q, s.frames[j]), k)
  {
    var s' := s.(bits := s.bits[j := 1]);
    assert Shaped(s', k);
    if |q| == k {
      assert Mark(q, s.frames[j]) == Queue(s'.frames, s'.bits, s'.hand);
    }
  }

  lemma RepresentsFill(s: State, q: seq<Entry>, k: nat, page: int)
    requires Represents(s, q, k) && |q| < k && page >= 0
    ensures Represents(s.(frames := s.frames[|q| := page], bits := s.bits[|q| := 0]), q + [Entry(page, 0)], k)
  {
    var s' := s.(frames := s.frames[|q| := page], bits := s.bits[|q| := 0]);
    assert Shaped(s', k);
    if |q| + 1 == k {
      assert q + [Entry(page, 0)] == Queue(s'.frames, s'.bits, 0);
    }
  }

  lemma RepresentsReplaced(s: State, q: seq<Entry>, k: nat, page: int)
    requires Represents(s, q, k) && |q| == k >= 1 && page >= 0
    ensures Represents(Replaced(s, page), Chance(q, page), k)
  {
    hide Queue, Chance;
    SweepsAreChance(s, page);
    ReplacedShaped(s, k, page);
  }

  lemma RepresentsStep(s: State, m: nat, q: seq<Entry>, k: nat, page: int, victim: nat, s': State)
    requires k >= 1 && Represents(s, q, k) && Packed(s.frames, m) && page >= 0
    requires Step(s, page, victim, s', k)
    ensures Represents(s', TextbookStep(q, k, page), k)
    ensures Queued(q, page) <==> Scan(s.frames, page, 0).Hit?
  {
    RepresentsCount(s, m, q, k);
    RepresentsMembers(s, q, k, page);
    ScanPacked(s.frames, m, page, 0);
    match Scan(s.frames, page, 0)
    case Hit(j) =>
      RepresentsHit(s, m, q, k, j);
    case Fill(_) =>
      RepresentsFill(s, q, k, page);
    case Miss =>
      RepresentsReplaced(s, q, k, page);
  }

  /** The simulator's Second-Chance is the textbook queue, reference by reference and fault by fault. */
  lemma {:induction false} SecondChanceIsTheQueue(refs: seq<int>, k: nat, r: Run, ss: seq<State>, n: nat)
    requires k >= 1 && IsSecondChanceRun(refs, k, r, ss) && PageNumbers(refs) && n <= |refs|
    ensures Represents(ss[n], Textbook(refs, k, n), k)
    ensures Counted(refs, r, n) == TextbookFaults(refs, k, n)
    decreases n
  {
    if n > 0 {
      SecondChanceIsTheQueue(refs, k, r, ss, n - 1);
      var m := RunPacked(refs, k, r, n - 1);
      assert Step(ss[n - 1], refs[n - 1], r.victims[n - 1], ss[n], k);
      RepresentsStep(ss[n - 1], m, Textbook(refs, k, n - 1), k, refs[n - 1], r.victims[n - 1], ss[n]);
    }
  }

  // ----- runs -----

  lemma ExtendSecondChance(refs: seq<int>, k: nat, r: Run, ss: seq<State>, page: int, victim: nat, s': State)
    returns (refs': seq<int>, r': Run, ss': seq<State>)
    requires IsSecondChanceRun(refs, k, r, ss) && victim < k
    requires Step(ss[|refs|], page, victim, s', k)
    ensures refs' == refs + [page] && ss' == ss + [s'] && r' == Run(r.frames + [s'.frames], r.victims + [victim])
    ensures IsSecondChanceRun(refs', k, r', ss')
    ensures Counted(refs', r', |refs|) == Counted(refs, r, |refs|)
  {
    refs', ss', r' := refs + [page], ss + [s'], Run(r.frames + [s'.frames], r.victims + [victim]);
    assert Serves(r.frames[|refs|], page, victim, s'.frames, k);
    ExtendRun(refs, k, r, page, victim, s'.frames);
    CountedExtend(refs, r, page, s'.frames, victim, |refs|);
    forall i | 0 <= i < |refs'| ensures Step(ss'[i], refs'[i], r'.victims[i], ss'[i + 1], k) {
      assert i < |refs| ==> Step(ss[i], refs[i], r.victims[i], ss[i + 1], k);
    }
  }

  lemma FreshIsShaped(k: nat)
    requires k >= 1
    ensures Shaped(State(Empty(k), Zeros(k), 0), k)
  {
  }

  lemma StepKeepsShape(s: State, page: int, victim: nat, s': State, k: nat)
    requires Step(s, page, victim, s', k)
    ensures Shaped(s', k)
  {
    if Scan(s.frames, page, 0).Miss? {
      ReplacedShaped(s, k, page);
    }
  }

  /** The method serves every string. */
  lemma {:induction false} RunExists(refs: seq<int>, k: nat) returns (r: Run, ss: seq<State>)
    requires k >= 1
    ensures IsSecondChanceRun(refs, k, r, ss) && Shaped(ss[|refs|], k)
    decreases |refs|
  {
    if refs == [] {
      r, ss := Run([Empty(k)], []), [State(Empty(k), Zeros(k), 0)];
    } else {
      var n := |refs| - 1;
      var r0, ss0 := RunExists(refs[..n], k);
      var s := ss0[n];
      var victim := if Scan(s.frames, refs[n], 0).Miss? then Sweeps(s.bits, s.hand).0 else 0;
      var s' := match Scan(s.frames, refs[n], 0)
                case Hit(j) => s.(bits := s.bits[j := 1])
                case Fill(j) => s.(frames := s.frames[j := refs[n]], bits := s.bits[j := 0])
                case Miss => Replaced(s, refs[n]);
      StepKeepsShape(s, refs[n], victim, s', k);
      var refs';
      refs', r, ss := ExtendSecondChance(refs[..n], k, r0, ss0, refs[n], victim, s');
      assert refs' == refs;
    }
  }

  // ----- when the method is conservative -----

  /** A replacement in `s` finds the bit at the hand clear. */
  ghost predicate PassesNone(s: State, page: int) {
    Scan(s.frames, page, 0).Miss? && s.hand < |s.bits| ==> s.bits[s.hand] == 0
  }

  lemma {:induction false} HandIsFifo(refs: seq<int>, k: nat, r: Run, ss: seq<State>, i: nat)
    requires IsSecondChanceRun(refs, k, r, ss) && i <= |refs|
    requires forall m | 0 <= m < |refs| :: PassesNone(ss[m], refs[m])
    ensures ss[i].hand == HandAt(refs, k, r.frames, i)
    ensures i < |refs| && Scan(r.frames[i], refs[i], 0).Miss? ==> r.victims[i] == ss[i].hand
    decreases i
  {
    if i > 0 {
      HandIsFifo(refs, k, r, ss, i - 1);
      assert Step(ss[i - 1], refs[i - 1], r.victims[i - 1], ss[i], k);
    }
    if i < |refs| {
      assert Step(ss[i], refs[i], r.victims[i], ss[i + 1], k);
      assert PassesNone(ss[i], refs[i]);
    }
  }

  /** A run whose hand never passes a set bit is a FIFO run, so the bounds of FIFO hold for it. */
  lemma ConservativeWithoutPassing(refs: seq<int>, k: nat, r: Run, ss: seq<State>)
    requires k >= 1 && IsSecondChanceRun(refs, k, r, ss) && PageNumbers(refs)
    requires forall m | 0 <= m < |refs| :: PassesNone(ss[m], refs[m])
    ensures Conservative(refs, k, Residents(r))
  {
    var r' := Run(r.frames, seq(|refs|, i requires 0 <= i < |refs| => HandAt(refs, k, r.frames, i)));
    forall i | 0 <= i < |refs| ensures Serves(r'.frames[i], refs[i], r'.victims[i], r'.frames[i + 1], k) {
      HandIsFifo(refs, k, r, ss, i);
      assert Serves(r.frames[i], refs[i], r.victims[i], r.frames[i + 1], k);
      assert Step(ss[i], refs[i], r.victims[i], ss[i + 1], k);
    }
    FifoConservative(refs, k, r');
    assert Residents(r') == Residents(r);
  }

  /** Pages 0..k-1 once, all but page 0 again, and then two new pages and the first of them again. */
  function Spoiler(k: nat): (refs: seq<int>)
    requires k >= 2
    ensures |refs| == 2 * k + 2
  {
    seq(2 * k + 2, i requires 0 <= i < 2 * k + 2 =>
      if i < k then i else if i < 2 * k - 1 then i - k + 1 else if i == 2 * k then k + 1 else k)
  }

  /** Pages `0..n`, those of `1..=marked` with their bits set. */
  ghost function Marked(n: nat, marked: nat): (q: seq<Entry>)
    ensures |q| == n
  {
    seq(n, i requires 0 <= i < n => Entry(i, if 1 <= i <= marked then 1 else 0))
  }

  lemma {:induction false} SpoilerFills(k: nat, n: nat)
    requires k >= 2 && n <= k
    ensures Textbook(Spoiler(k), k, n) == Marked(n, 0)
    decreases n
  {
    if n > 0 {
      SpoilerFills(k, n - 1);
      assert !Queued(Marked(n - 1, 0), n - 1);
      assert Marked(n, 0) == Marked(n - 1, 0) + [Entry(n - 1, 0)];
    }
  }

  lemma {:induction false} SpoilerMarks(k: nat, j: nat)
    requires k >= 2 && j < k
    ensures Textbook(Spoiler(k), k, k + j) == Marked(k, j)
    decreases j
  {
    if j == 0 {
      SpoilerFills(k, k);
    } else {
      SpoilerMarks(k, j - 1);
      assert Marked(k, j - 1)[j].page == j;
      assert Mark(Marked(k, j - 1), j) == Marked(k, j);
    }
  }

  ghost function Cleared(q: seq<Entry>): (q': seq<Entry>)
    ensures |q'| == |q|
  {
    seq(|q|, i requires 0 <= i < |q| => Entry(q[i].page, 0))
  }

  /** Entries with set bits at the head are all passed before any entry behind them is evicted. */
  lemma {:induction false} ChancePasses(q: seq<Entry>, rest: seq<Entry>, page: int)
    requires rest != [] && forall i | 0 <= i < |q| :: q[i].bit != 0
    ensures Chance(q + rest, page) == Chance(rest + Cleared(q), page)
    decreases |q|
  {
    if q == [] {
      assert q + rest == rest && rest + Cleared(q) == rest;
    } else {
      var head := Entry(q[0].page, 0);
      assert (q + rest)[1..] + [head] == q[1..] + (rest + [head]);
      assert Chance(q + rest, page) == Chance(q[1..] + (rest + [head]), page);
      ChancePasses(q[1..], rest + [head], page);
      assert (rest + [head]) + Cleared(q[1..]) == rest + Cleared(q);
    }
  }

  /** What the spoiler leaves marked when its two new pages come. */
  ghost function Old(k: nat): seq<Entry>
    requires k >= 2
  {
    Marked(k, k - 1)[1..]
  }

  /** The first new page takes the place of page 0, the only one unmarked. */
  lemma SpoilerEvictsFirst(k: nat)
    requires k >= 2
    ensures var q := Marked(k, k - 1); !Queued(q, k) && TextbookStep(q, k, k) == Old(k) + [Entry(k, 0)]
  {
  }

  /** The second finds all older pages marked and evicts the first. */
  lemma SpoilerEvictsNew(k: nat)
    requires k >= 2
    ensures var q := Old(k) + [Entry(k, 0)];
      !Queued(q, k + 1) && TextbookStep(q, k, k + 1) == Cleared(Old(k)) + [Entry(k + 1, 0)]
    ensures !Queued(Cleared(Old(k)) + [Entry(k + 1, 0)], k)
  {
    ChancePasses(Old(k), [Entry(k, 0)], k + 1);
    assert ([Entry(k, 0)] + Cleared(Old(k)))[1..] == Cleared(Old(k));
  }

  lemma NextFault(refs: seq<int>, k: nat, n: nat, page: int)
    requires k >= 1 && n < |refs| && page == refs[n] && !Queued(Textbook(refs, k, n), page)
    ensures TextbookFaults(refs, k, n + 1) == TextbookFaults(refs, k, n) + 1
    ensures Textbook(refs, k, n + 1) == TextbookStep(Textbook(refs, k, n), k, page)
  {
  }

  lemma SpoilerEnd(k: nat)
    requires k >= 2
    ensures var refs, n := Spoiler(k), 2 * k - 1; refs[n] == k && refs[n + 1] == k + 1 && refs[n + 2] == k
  {
  }

  lemma SpoilerReady(k: nat)
    requires k >= 2
    ensures Textbook(Spoiler(k), k, 2 * k - 1) == Marked(k, k - 1)
  {
    hide Textbook, Marked, Spoiler;
    SpoilerMarks(k, k - 1);
    assert k + (k - 1) == 2 * k - 1;
  }

  /** The last three references of the spoiler are to two pages, and all fault. */
  lemma SpoilerTail(k: nat)
    requires k >= 2
    ensures TextbookFaults(Spoiler(k), k, 2 * k + 2) == TextbookFaults(Spoiler(k), k, 2 * k - 1) + 3
    ensures Pages(Spoiler(k), 2 * k - 1, 2 * k + 2) == {k, k + 1}
  {
    hide TextbookStep, Queued, Old, Marked, Cleared, Spoiler, Textbook, TextbookFaults, Pages;
    var refs, n := Spoiler(k), 2 * k - 1;
    SpoilerEnd(k);
    SpoilerReady(k);
    SpoilerEvictsFirst(k);
    SpoilerEvictsNew(k);
    NextFault(refs, k, n, k);
    NextFault(refs, k, n + 1, k + 1);
    NextFault(refs, k, n + 2, k);
    PagesOfThree(refs, n);
  }

  lemma PagesOfThree(refs: seq<int>, n: nat)
    requires n + 3 <= |refs|
    ensures Pages(refs, n, n + 3) == {refs[n], refs[n + 1], refs[n + 2]}
  {
  }

  lemma TooManyFaults(refs: seq<int>, k: nat, s: seq<set<int>>, a: nat, b: nat)
    requires |s| == |refs| + 1 && a <= b <= |refs|
    requires |Pages(refs, a, b)| < Faults(refs, s, a, b) <= k + 1
    ensures !Conservative(refs, k, s)
  {
  }

  /** With two frames or more every run on the spoiler has three faults on two pages. */
  lemma NotConservative(k: nat, r: Run, ss: seq<State>)
    requires k >= 2 && IsSecondChanceRun(Spoiler(k), k, r, ss)
    ensures |Residents(r)| == |Spoiler(k)| + 1 && !Conservative(Spoiler(k), k, Residents(r))
  {
    hide Pages, Faults, IsSecondChanceRun, Conservative, Residents, TextbookFaults;
    var refs, n := Spoiler(k), 2 * k - 1;
    assert PageNumbers(refs);
    FaultsBetween(refs, k, r, ss, n, n + 3);
    hide Spoiler;
    SpoilerTail(k);
    assert |{k, k + 1}| == 2;
    TooManyFaults(refs, k, Residents(r), n, n + 3);
  }

  lemma FaultsBetween(refs: seq<int>, k: nat, r: Run, ss: seq<State>, a: nat, b: nat)
    requires k >= 1 && IsSecondChanceRun(refs, k, r, ss) && PageNumbers(refs) && a <= b <= |refs|
    ensures |Residents(r)| == |refs| + 1
    ensures Faults(refs, Residents(r), a, b) == TextbookFaults(refs, k, b) - TextbookFaults(refs, k, a)
  {
    SecondChanceIsTheQueue(refs, k, r, ss, a);
    SecondChanceIsTheQueue(refs, k, r, ss, b);
    CountedIsCost(refs, k, r, a);
    CountedIsCost(refs, k, r, b);
    FaultsSplit(refs, Residents(r), 0, a, b);
  }

  /** Whatever page numbers it serves, the method over `k` frames keeps the property behind the bounds of FIFO and LRU. */
  ghost predicate IsConservative(k: nat) {
    forall refs, r, ss | IsSecondChanceRun(refs, k, r, ss) && PageNumbers(refs) :: Conservative(refs, k, Residents(r))
  }

  /** Loading pages with a clear bit costs the method that property, exactly when there is a second frame. */
  lemma ConservativeForOneFrameOnly(k: nat)
    requires k >= 1
    ensures IsConservative(k) <==> k == 1
  {
    if k == 1 {
      forall refs, r, ss | IsSecondChanceRun(refs, 1, r, ss) && PageNumbers(refs)
        ensures Conservative(refs, 1, Residents(r))
      {
        RunIsSchedule(refs, 1, r);
        AlwaysConservativeForOne(refs, 1, Residents(r));
      }
    } else {
      var r, ss := RunExists(Spoiler(k), k);
      NotConservative(k, r, ss);
      assert IsSecondChanceRun(Spoiler(k), k, r, ss) && PageNumbers(Spoiler(k));
    }
  }

  // ----- the simulator's loop -----

  /** One sweep over the frames `lo..hi`. */
  method Sweep(frames: array<int>, bits: array<int>, lo: nat, hi: nat, page: int) returns (flag: bool, next: nat)
    requires frames != bits && frames.Length == bits.Length && Bits(bits[..]) && lo <= hi <= frames.Length
    modifies frames, bits
    ensures var (victim, after) := SweepBits(old(bits[..]), lo, hi);
      && bits[..] == after
      && flag == (victim < hi)
      && next == (if flag then victim + 1 else hi)
      && frames[..] == if flag then old(frames[..])[victim := page] else old(frames[..])
  {
    ghost var swept := SweepBits(bits[..], lo, hi);
    for j := lo to hi
      invariant frames[..] == old(frames[..])
      invariant Bits(bits[..])
      invariant SweepBits(bits[..], j, hi) == swept
    {
      if bits[j] == 0 {
        frames[j] := page;
        return true, j + 1;
      } else if bits[j] == 1 {
        bits[j] := 0;
      }
    }
    return false, hi;
  }

  /** The sweep from the hand to the last frame, the sweep from frame 0 to the hand, the fallback. */
  method Replace(frames: array<int>, bits: array<int>, hand: nat, page: int) returns (newHand: nat)
    requires frames != bits
    requires Shaped(State(frames[..], bits[..], hand), frames.Length)
    modifies frames, bits
    ensures newHand == Sweeps(old(bits[..]), hand).0 + 1
    ensures State(frames[..], bits[..], Wrap(newHand, frames.Length)) == Replaced(old(State(frames[..], bits[..], hand)), page)
    ensures Queue(frames[..], bits[..], Wrap(newHand, frames.Length)) == Chance(old(Queue(frames[..], bits[..], hand)), page)
  {
    SweepsAreChance(State(frames[..], bits[..], hand), page);
    hide Queue, Chance;
    var flag;
    flag, newHand := Sweep(frames, bits, hand, frames.Length, page);
    if !flag {
      flag, newHand := Sweep(frames, bits, 0, hand, page);
    }
    if !flag {
      frames[hand] := page;
      newHand := hand + 1;
    }
  }

  /** One reference: the scan, then the bit of a hit or a filled frame, or the sweeps, and the wrap of the hand. */
  method ServePage(frames: array<int>, bits: array<int>, hand: nat, page: int)
    returns (newHand: nat, fault: bool, ghost replaced: nat)
    requires frames != bits && frames.Length >= 1 && Shaped(State(frames[..], bits[..], hand), frames.Length)
    modifies frames, bits
    ensures Step(old(State(frames[..], bits[..], hand)), page, replaced, State(frames[..], bits[..], newHand), frames.Length)
    ensures Shaped(State(frames[..], bits[..], newHand), frames.Length) && replaced < frames.Length
    ensures fault <==> !Scan(old(frames[..]), page, 0).Hit?
  {
    hide Queue, Chance, Sweeps;
    newHand, replaced := hand, 0;
    var outcome := ScanFrames(frames, page);
    fault := !outcome.Hit?;
    if outcome.Hit? {
      bits[outcome.frame] := 1;
    } else if outcome.Fill? {
      bits[outcome.frame] := 0;
    } else {
      ReplacedShaped(State(frames[..], bits[..], hand), frames.Length, page);
      newHand := Replace(frames, bits, hand, page);
      replaced := newHand - 1;
    }
    if newHand == frames.Length {
      newHand := 0;
    }
  }

  /** The Second-Chance loop of the simulator. */
  method Simulate(refs: seq<int>, k: nat) returns (pageFault: nat, ghost run: Run, ghost states: seq<State>)
    requires k >= 1
    ensures IsSecondChanceRun(refs, k, run, states)
    ensures pageFault == Counted(refs, run, |refs|)
    ensures PageNumbers(refs) ==> pageFault == TextbookFaults(refs, k, |refs|)
  {
    hide Step, TextbookFaults, Bits, Scan, Serves;
    var frames := new int[k](_ => -1);
    var bits := new int[k](_ => 0);
    var victim := 0;
    pageFault := 0;
    run, states := Run([Empty(k)], []), [State(Empty(k), Zeros(k), 0)];
    FreshIsShaped(k);
    for i := 0 to |refs|
      invariant IsSecondChanceRun(refs[..i], k, run, states)
      invariant states[i] == State(frames[..], bits[..], victim)
      invariant Shaped(states[i], k)
      invariant pageFault == Counted(refs[..i], run, i)
    {
      var fault;
      ghost var replaced;
      victim, fault, replaced := ServePage(frames, bits, victim, refs[i]);
      if fault {
        pageFault := pageFault + 1;
      }
      ghost var served;
      served, run, states := ExtendSecondChance(refs[..i], k, run, states, refs[i], replaced, State(frames[..], bits[..], victim));
      assert served == refs[..i + 1];
    }
    assert refs[..|refs|] == refs;
    if PageNumbers(refs) {
      SecondChanceIsTheQueue(refs, k, run, states, |refs|);
    }
  }
}
