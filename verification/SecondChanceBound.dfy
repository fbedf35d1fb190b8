/**
  A competitive bound for Second-Chance. Though not conservative, it is never far off: in a
  stretch of at most `k` distinct pages no page is loaded more than twice. While a loaded page moves
  from the tail of the queue to its head every page from outside the stretch is popped once, which
  clears its bit, so by the next time round none is left.
 */
module SecondChanceBound {
  import opened Basics
  import opened Schedules
  import opened Frames
  import opened SecondChance

  // ----- queues without repetition -----

  /** At most `k` entries, of different pages. */
  ghost predicate Sane(q: seq<Entry>, k: nat) {
    && |q| <= k
    && forall i, j | 0 <= i < j < |q| :: q[i].page != q[j].page
  }

  /** The head requeued with its bit clear. */
  function Requeued(q: seq<Entry>): (q': seq<Entry>)
    requires q != []
    ensures |q'| == |q|
  {
    q[1..] + [Entry(q[0].page, 0)]
  }

  lemma ChancePops(q: seq<Entry>, page: int)
    requires q != []
    ensures q[0].bit == 0 ==> Chance(q, page) == q[1..] + [Entry(page, 0)]
    ensures q[0].bit != 0 ==> Chance(q, page) == Chance(Requeued(q), page) && SetBits(Requeued(q)) < SetBits(q)
  {
    SetBitsAppend(q[1..], Entry(q[0].page, 0));
  }

  lemma RequeuedSane(q: seq<Entry>, k: nat, page: int)
    requires Sane(q, k) && q != [] && !Queued(q, page)
    ensures Sane(Requeued(q), k) && !Queued(Requeued(q), page)
  {
    assert q[0].page != page;
  }

  lemma {:induction false} ChanceSane(q: seq<Entry>, k: nat, page: int)
    requires Sane(q, k) && q != [] && !Queued(q, page)
    ensures Sane(Chance(q, page), k)
    decreases SetBits(q)
  {
    hide Chance;
    ChancePops(q, page);
    if q[0].bit != 0 {
      RequeuedSane(q, k, page);
      hide Sane, Requeued, Queued;
      ChanceSane(Requeued(q), k, page);
    }
  }

  lemma {:induction false} TextbookSane(refs: seq<int>, k: nat, n: nat)
    requires k >= 1 && n <= |refs|
    ensures Sane(Textbook(refs, k, n), k)
    decreases n
  {
    if n > 0 {
      TextbookSane(refs, k, n - 1);
      var q, page := Textbook(refs, k, n - 1), refs[n - 1];
      if !Queued(q, page) && |q| >= k {
        ChanceSane(q, k, page);
      }
    }
  }

  // ----- what a narrow stretch does to the queue -----

  /** No page from outside `w` has its bit set. */
  ghost predicate Stale(q: seq<Entry>, w: set<int>) {
    forall j | 0 <= j < |q| && q[j].page !in w :: q[j].bit == 0
  }

  /** Behind a page of `once` no page from outside `w` has its bit set. */
  ghost predicate ClearBehind(q: seq<Entry>, w: set<int>, once: set<int>) {
    forall i, j | 0 <= i < j < |q| && q[i].page in once && q[j].page !in w :: q[j].bit == 0
  }

  /** Behind a page of `twice` there is no page from outside `w`. */
  ghost predicate NoneBehind(q: seq<Entry>, w: set<int>, twice: set<int>) {
    forall i, j | 0 <= i < j < |q| && q[i].page in twice :: q[j].page in w
  }

  /** The stretch, over pages `w`, has loaded the pages of `once`, and those of `twice` a second time. */
  ghost predicate Stretch(q: seq<Entry>, k: nat, w: set<int>, once: set<int>, twice: set<int>) {
    && Sane(q, k)
    && twice <= once <= w
    && ClearBehind(q, w, once)
    && NoneBehind(q, w, twice)
    && (forall p | p in once && !Queued(q, p) :: Stale(q, w))
    && (twice != {} ==> Stale(q, w))
    && (forall p | p in twice :: Queued(q, p))
  }

  lemma MarkKeeps(q: seq<Entry>, k: nat, w: set<int>, once: set<int>, twice: set<int>, page: int)
    requires Stretch(q, k, w, once, twice) && page in w
    ensures Stretch(Mark(q, page), k, w, once, twice)
  {
    var q' := Mark(q, page);
    forall p ensures Queued(q', p) <==> Queued(q, p) {
      if Queued(q, p) {
        var i :| 0 <= i < |q| && q[i].page == p;
        assert q'[i].page == p;
      }
    }
  }

  /** Passing a set bit: the head is either a page of the stretch or gets its bit cleared. */
  lemma RequeueKeeps(q: seq<Entry>, k: nat, w: set<int>, once: set<int>, twice: set<int>)
    requires Stretch(q, k, w, once, twice) && q != [] && q[0].bit != 0
    ensures Stretch(Requeued(q), k, w, once, twice)
  {
    var q' := Requeued(q);
    forall p ensures Queued(q', p) <==> Queued(q, p) {
      if Queued(q, p) {
        var i :| 0 <= i < |q| && q[i].page == p;
        assert q'[if i == 0 then |q| - 1 else i - 1].page == p;
      }
    }
  }

  /** What a load of `page` adds to the pages loaded twice. */
  function Again(once: set<int>, page: int): set<int> {
    if page in once then {page} else {}
  }

  /** A load into a free place, or into that of an evicted page that was loaded at most once. */
  lemma PushKeeps(q: seq<Entry>, k: nat, w: set<int>, once: set<int>, twice: set<int>, page: int)
    requires Stretch(q, k, w, once, twice) && page in w && !Queued(q, page) && |q| < k
    ensures Stretch(q + [Entry(page, 0)], k, w, once + {page}, twice + Again(once, page))
  {
    var q' := q + [Entry(page, 0)];
    forall p ensures Queued(q', p) <==> p == page || Queued(q, p) {
      if Queued(q, p) {
        var i :| 0 <= i < |q| && q[i].page == p;
        assert q'[i].page == p;
      }
      assert q'[|q|].page == page;
    }
  }

  lemma DropKeeps(q: seq<Entry>, k: nat, w: set<int>, once: set<int>, twice: set<int>)
    requires Stretch(q, k, w, once, twice) && q != [] && q[0].bit == 0 && q[0].page !in twice
    ensures Stretch(q[1..], k, w, once, twice)
  {
    var q' := q[1..];
    forall p ensures Queued(q', p) <==> Queued(q, p) && p != q[0].page {
      if Queued(q, p) && p != q[0].page {
        var i :| 0 <= i < |q| && q[i].page == p;
        assert q'[i - 1].page == p;
      }
    }
  }

  /** When a page loaded twice is at the head of a full queue, all `k` pages and the new one are in `w`. */
  lemma NotTwiceAtHead(q: seq<Entry>, k: nat, w: set<int>, once: set<int>, twice: set<int>, page: int)
    requires Stretch(q, k, w, once, twice) && |q| == k >= 1 && page in w && !Queued(q, page) && |w| <= k
    ensures q[0].page !in twice
  {
    assert |w - {page}| == |w| - 1;
    if q[0].page in twice {
      var pages := seq(k, i requires 0 <= i < k => q[i].page);
      DistinctCount(pages);
      var held := set x | x in pages;
      forall x | x in held ensures x in w - {page} {
        var i :| 0 <= i < k && pages[i] == x;
        assert q[0].page in twice && (i > 0 ==> q[i].page in w);
      }
      Subset(held, w - {page});
    }
  }

  lemma {:induction false} ChanceKeeps(q: seq<Entry>, k: nat, w: set<int>, once: set<int>, twice: set<int>, page: int)
    requires Stretch(q, k, w, once, twice) && |q| == k >= 1 && page in w && !Queued(q, page) && |w| <= k
    ensures Stretch(Chance(q, page), k, w, once + {page}, twice + Again(once, page))
    decreases SetBits(q)
  {
    hide Chance, Sane, Stale, ClearBehind, NoneBehind;
    ChancePops(q, page);
    if q[0].bit == 0 {
      NotTwiceAtHead(q, k, w, once, twice, page);
      DropKeeps(q, k, w, once, twice);
      PushKeeps(q[1..], k, w, once, twice, page);
    } else {
      RequeueKeeps(q, k, w, once, twice);
      RequeuedSane(q, k, page);
      ChanceKeeps(Requeued(q), k, w, once, twice, page);
    }
  }

  lemma StepKeeps(q: seq<Entry>, k: nat, w: set<int>, once: set<int>, twice: set<int>, page: int)
    requires Stretch(q, k, w, once, twice) && k >= 1 && page in w && |w| <= k && !Queued(q, page)
    ensures Stretch(TextbookStep(q, k, page), k, w, once + {page}, twice + Again(once, page))
    ensures |once + {page}| + |twice + Again(once, page)| == |once| + |twice| + 1
  {
    hide ClearBehind, NoneBehind, Stale;
    if |q| < k {
      PushKeeps(q, k, w, once, twice, page);
    } else {
      ChanceKeeps(q, k, w, once, twice, page);
    }
    if page in once {
      assert once + {page} == once && page !in twice;
    } else {
      assert twice + Again(once, page) == twice;
    }
  }

  /** In a narrow stretch every load is the first or the second of its page. */
  lemma {:induction false} LoadsOfStretch(refs: seq<int>, k: nat, a: nat, b: nat, w: set<int>) returns (once: set<int>, twice: set<int>)
    requires k >= 1 && a <= b <= |refs| && Pages(refs, a, b) <= w && |w| <= k
    ensures Stretch(Textbook(refs, k, b), k, w, once, twice)
    ensures TextbookFaults(refs, k, b) == TextbookFaults(refs, k, a) + |once| + |twice|
    decreases b
  {
    if a == b {
      once, twice := {}, {};
      TextbookSane(refs, k, b);
    } else {
      var page, q := refs[b - 1], Textbook(refs, k, b - 1);
      PagesGrow(refs, a, b);
      hide Pages, Stretch;
      once, twice := LoadsOfStretch(refs, k, a, b - 1, w);
      if Queued(q, page) {
        MarkKeeps(q, k, w, once, twice, page);
      } else {
        StepKeeps(q, k, w, once, twice, page);
        once, twice := once + {page}, twice + Again(once, page);
      }
    }
  }

  lemma StretchCounts(q: seq<Entry>, k: nat, w: set<int>, once: set<int>, twice: set<int>)
    requires Stretch(q, k, w, once, twice)
    ensures |once| + |twice| <= 2 * |w|
  {
    Subset(once, w);
    Subset(twice, w);
  }

  /** A stretch of at most `k` distinct pages faults at most twice for each. */
  lemma TwiceAPage(refs: seq<int>, k: nat, r: Run, ss: seq<State>)
    requires k >= 1 && IsSecondChanceRun(refs, k, r, ss) && PageNumbers(refs)
    ensures |Residents(r)| == |refs| + 1 && Narrow(refs, k, 2, Residents(r))
  {
    hide Faults, Pages, Stretch;
    forall a: nat, b: nat | a <= b <= |refs| && |Pages(refs, a, b)| <= k
      ensures Faults(refs, Residents(r), a, b) <= 2 * |Pages(refs, a, b)|
    {
      FaultsBetween(refs, k, r, ss, a, b);
      var once, twice := LoadsOfStretch(refs, k, a, b, Pages(refs, a, b));
      StretchCounts(Textbook(refs, k, b), k, Pages(refs, a, b), once, twice);
    }
  }

  /** Second-Chance over `k` frames costs at most `2k / (k - h + 1)` times any schedule over `h <= k` frames. */
  lemma SecondChanceCompetitive(refs: seq<int>, k: nat, r: Run, ss: seq<State>, h: nat, t: seq<set<int>>)
    requires 1 <= h <= k && IsSecondChanceRun(refs, k, r, ss) && PageNumbers(refs) && IsSchedule(refs, h, t)
    ensures (k - h + 1) * Counted(refs, r, |refs|) <= 2 * k * Cost(refs, t)
  {
    TwiceAPage(refs, k, r, ss);
    CountedIsCost(refs, k, r, |refs|);
    hide Narrow, Step, Serves, Moves;
    NarrowIsCompetitive(refs, k, 2, Residents(r), h, t, |refs|);
  }
}
