/**
  The bound that FIFO and LRU meet is out of reach for Second-Chance with a second frame: a family
  of strings on which it faults `k + 1` times for every single fault of another schedule.
 */
module SecondChanceWorst {
  import opened Basics
  import opened Schedules
  import opened Frames
  import opened SecondChance
  import opened SecondChanceBound

  // ----- serving a list of references -----

  /** The textbook queue after it has served `ps` from `q` on. */
  ghost function Served(q: seq<Entry>, k: nat, ps: seq<int>): seq<Entry>
    requires k >= 1
    decreases |ps|
  {
    if ps == [] then q else TextbookStep(Served(q, k, ps[..|ps| - 1]), k, ps[|ps| - 1])
  }

  /** How often it loads a page meanwhile. */
  ghost function Missed(q: seq<Entry>, k: nat, ps: seq<int>): nat
    requires k >= 1
    decreases |ps|
  {
    if ps == [] then 0
    else
      var before := ps[..|ps| - 1];
      Missed(q, k, before) + if Queued(Served(q, k, before), ps[|ps| - 1]) then 0 else 1
  }

  lemma ServedOne(q: seq<Entry>, k: nat, page: int)
    requires k >= 1
    ensures Served(q, k, [page]) == TextbookStep(q, k, page)
    ensures Missed(q, k, [page]) == if Queued(q, page) then 0 else 1
  {
    assert [page][..0] == [];
    assert Served(q, k, []) == q;
  }

  lemma {:induction false} ServedConcat(q: seq<Entry>, k: nat, a: seq<int>, b: seq<int>)
    requires k >= 1
    ensures Served(q, k, a + b) == Served(Served(q, k, a), k, b)
    ensures Missed(q, k, a + b) == Missed(q, k, a) + Missed(Served(q, k, a), k, b)
    decreases |b|
  {
    hide TextbookStep, Queued;
    if b == [] {
      assert a + b == a;
    } else {
      var c := b[..|b| - 1];
      ServedConcat(q, k, a, c);
      assert (a + b)[..|a + b| - 1] == a + c;
    }
  }

  lemma {:induction false} ServedIsTextbook(refs: seq<int>, k: nat, n: nat)
    requires k >= 1 && n <= |refs|
    ensures Textbook(refs, k, n) == Served([], k, refs[..n])
    ensures TextbookFaults(refs, k, n) == Missed([], k, refs[..n])
    decreases n
  {
    hide TextbookStep, Queued;
    if n > 0 {
      ServedIsTextbook(refs, k, n - 1);
      assert refs[..n][..n - 1] == refs[..n - 1];
    }
  }

  /** Entries for pages just loaded. */
  function Fresh(ps: seq<int>): (q: seq<Entry>)
    ensures |q| == |ps|
    ensures forall i | 0 <= i < |ps| :: q[i] == Entry(ps[i], 0)
  {
    seq(|ps|, i requires 0 <= i < |ps| => Entry(ps[i], 0))
  }

  /** New pages that find free places. */
  lemma {:induction false} Fills(q: seq<Entry>, k: nat, ps: seq<int>)
    requires k >= 1 && |q| + |ps| <= k && Distinct(ps)
    requires forall n | 0 <= n < |ps| :: !Queued(q, ps[n])
    ensures Served(q, k, ps) == q + Fresh(ps) && Missed(q, k, ps) == |ps|
    decreases |ps|
  {
    if ps != [] {
      hide Served, Missed, Queued;
      var n := |ps| - 1;
      assert ps == ps[..n] + [ps[n]];
      Fills(q, k, ps[..n]);
      var q' := q + Fresh(ps[..n]);
      assert q[0..] == q;
      NotAmong(q, ps, n, 0);
      ServedConcat(q, k, ps[..n], [ps[n]]);
      ServedOne(q', k, ps[n]);
      assert q' + [Entry(ps[n], 0)] == q + Fresh(ps);
    } else {
      assert q + Fresh(ps) == q;
    }
  }

  /** A page is not among the rest of the queue and the fresh pages behind it. */
  lemma NotAmong(q: seq<Entry>, ps: seq<int>, n: nat, from: nat)
    requires n < |ps| && from <= |q| && Distinct(ps) && !Queued(q[from..], ps[n])
    ensures !Queued(q[from..] + Fresh(ps[..n]), ps[n])
  {
    var q' := q[from..] + Fresh(ps[..n]);
    forall i | 0 <= i < |q'| ensures q'[i].page != ps[n] {
      if i < |q| - from {
        assert q[from..][i].page != ps[n];
      }
    }
  }

  /** New pages that each evict the head of a full queue, its bit being clear. */
  lemma {:induction false} Replaces(q: seq<Entry>, k: nat, ps: seq<int>)
    requires |q| == k >= 1 && |ps| <= k && Distinct(ps)
    requires forall n | 0 <= n < |ps| :: q[n].bit == 0 && !Queued(q[n..], ps[n])
    ensures Served(q, k, ps) == q[|ps|..] + Fresh(ps) && Missed(q, k, ps) == |ps|
    decreases |ps|
  {
    if ps == [] {
      assert q[0..] + Fresh(ps) == q;
    } else {
      hide Served, Missed, TextbookStep, Queued;
      var n := |ps| - 1;
      assert ps == ps[..n] + [ps[n]];
      Replaces(q, k, ps[..n]);
      var q' := q[n..] + Fresh(ps[..n]);
      ServedConcat(q, k, ps[..n], [ps[n]]);
      ServedOne(q', k, ps[n]);
      ReplacesOne(q, k, ps, n);
    }
  }

  lemma ReplacesOne(q: seq<Entry>, k: nat, ps: seq<int>, n: nat)
    requires |q| == k >= 1 && |ps| == n + 1 <= k && Distinct(ps) && q[n].bit == 0 && !Queued(q[n..], ps[n])
    ensures var q' := q[n..] + Fresh(ps[..n]);
      !Queued(q', ps[n]) && TextbookStep(q', k, ps[n]) == q[n + 1..] + Fresh(ps)
  {
    var q' := q[n..] + Fresh(ps[..n]);
    NotAmong(q, ps, n, n);
    hide Queued, Chance;
    assert q'[0] == q[n];
    ChancePops(q', ps[n]);
    assert q'[1..] + [Entry(ps[n], 0)] == q[n + 1..] + Fresh(ps);
  }

  // ----- one block of the family -----

  /** Pages `0..n`, which come back in every block. */
  function Fixed(n: nat): (ps: seq<int>)
    ensures |ps| == n && Distinct(ps)
  {
    seq(n, i requires 0 <= i < n => i)
  }

  /** The page that blocks `i - 1` and `i` share. */
  function Passing(k: nat, i: nat): int {
    k + i
  }

  /** The block twice asks for the page that the last one brought, then for a new one, then for the fixed ones. */
  function Block(k: nat, i: nat): (ps: seq<int>)
    requires k >= 2
    ensures |ps| == k + 2
  {
    [Passing(k, i)] + [Passing(k, i)] + [Passing(k, i + 1)] + Fixed(k - 2) + [k - 2]
  }

  /** The queue after block `i`. */
  function Rest(k: nat, i: nat): (q: seq<Entry>)
    requires k >= 2
    ensures |q| == k
  {
    Fresh(Fixed(k - 2)) + [Entry(Passing(k, i), 0)] + [Entry(k - 2, 0)]
  }

  lemma RestPages(k: nat, i: nat, n: nat)
    requires k >= 2 && n < k
    ensures Rest(k, i)[n] == if n < k - 2 then Entry(n, 0) else if n == k - 2 then Entry(Passing(k, i), 0) else Entry(k - 2, 0)
  {
  }

  lemma RestHasNo(k: nat, i: nat, n: nat, page: int)
    requires k >= 2 && n <= k && page != Passing(k, i) && (page >= k || page < n || (n == k && page >= 0))
    requires page == k - 2 ==> n == k
    ensures !Queued(Rest(k, i)[n..], page)
  {
    var q := Rest(k, i)[n..];
    forall j | 0 <= j < |q| ensures q[j].page != page {
      RestPages(k, i, n + j);
    }
  }

  /** The last reference of a block: the marked page is passed, the new one evicted. */
  lemma LastOfBlock(k: nat, i: nat)
    requires k >= 2
    ensures var q := [Entry(Passing(k, i), 1)] + [Entry(Passing(k, i + 1), 0)] + Fresh(Fixed(k - 2));
      !Queued(q, k - 2) && TextbookStep(q, k, k - 2) == Rest(k, i)
  {
    var q := [Entry(Passing(k, i), 1)] + [Entry(Passing(k, i + 1), 0)] + Fresh(Fixed(k - 2));
    assert !Queued(q, k - 2);
    var q' := [Entry(Passing(k, i + 1), 0)] + Fresh(Fixed(k - 2)) + [Entry(Passing(k, i), 0)];
    ChancePops(q, k - 2);
    assert Requeued(q) == q';
    ChancePops(q', k - 2);
    assert q'[1..] + [Entry(k - 2, 0)] == Rest(k, i);
  }

  /** After the three passing references of block `i`, whatever the queue was at its start. */
  ghost predicate Marked3(q: seq<Entry>, k: nat, i: nat, x: seq<Entry>)
    requires k >= 2
  {
    q == x + [Entry(Passing(k, i), 1)] + [Entry(Passing(k, i + 1), 0)]
  }

  lemma FirstThree(k: nat)
    requires k >= 2
    ensures var ps := [Passing(k, 0)] + [Passing(k, 0)] + [Passing(k, 1)];
      Marked3(Served([], k, ps), k, 0, []) && Missed([], k, ps) == 2
  {
    var p, p' := Passing(k, 0), Passing(k, 1);
    ServedConcat([], k, [p] + [p], [p']);
    ServedConcat([], k, [p], [p]);
    ServedOne([], k, p);
    var q1 := [Entry(p, 0)];
    assert TextbookStep([], k, p) == q1;
    ServedOne(q1, k, p);
    assert Queued(q1, p) by {
      assert q1[0].page == p;
    }
    var q2 := [Entry(p, 1)];
    assert Mark(q1, p) == q2;
    ServedOne(q2, k, p');
    assert !Queued(q2, p');
  }

  /** The first reference replaces the head of the queue at rest. */
  lemma FirstOfBlock(k: nat, i: nat)
    requires k >= 2 && i > 0
    ensures var q, p := Rest(k, i - 1), Passing(k, i); !Queued(q, p) && TextbookStep(q, k, p) == q[1..] + [Entry(p, 0)]
  {
    var q, p := Rest(k, i - 1), Passing(k, i);
    RestHasNo(k, i - 1, 0, p);
    assert q[0..] == q;
    RestPages(k, i - 1, 0);
    ChancePops(q, p);
  }

  /** The second marks the page just loaded. */
  lemma SecondOfBlock(k: nat, i: nat)
    requires k >= 2 && i > 0
    ensures var q, p := Rest(k, i - 1)[1..], Passing(k, i);
      Queued(q + [Entry(p, 0)], p) && TextbookStep(q + [Entry(p, 0)], k, p) == q + [Entry(p, 1)]
  {
    var q, p := Rest(k, i - 1)[1..], Passing(k, i);
    var q1 := q + [Entry(p, 0)];
    assert q1[k - 1].page == p;
    forall j | 0 <= j < k - 1 ensures q1[j].page != p {
      RestPages(k, i - 1, j + 1);
    }
    assert Mark(q1, p) == q + [Entry(p, 1)];
  }

  /** The third replaces the next head. */
  lemma ThirdOfBlock(k: nat, i: nat)
    requires k >= 2 && i > 0
    ensures var q, p, p' := Rest(k, i - 1), Passing(k, i), Passing(k, i + 1);
      var q2 := q[1..] + [Entry(p, 1)];
      !Queued(q2, p') && TextbookStep(q2, k, p') == q[2..] + [Entry(p, 1)] + [Entry(p', 0)]
  {
    var q, p, p' := Rest(k, i - 1), Passing(k, i), Passing(k, i + 1);
    var q2 := q[1..] + [Entry(p, 1)];
    forall j | 0 <= j < |q2| ensures q2[j].page != p' {
      if j < k - 1 {
        RestPages(k, i - 1, j + 1);
      }
    }
    RestPages(k, i - 1, 1);
    assert q2[0] == q[1];
    ChancePops(q2, p');
    assert q2[1..] + [Entry(p', 0)] == q[2..] + [Entry(p, 1)] + [Entry(p', 0)];
  }

  lemma NextThree(k: nat, i: nat)
    requires k >= 2 && i > 0
    ensures var q, ps := Rest(k, i - 1), [Passing(k, i)] + [Passing(k, i)] + [Passing(k, i + 1)];
      Marked3(Served(q, k, ps), k, i, q[2..]) && Missed(q, k, ps) == 2
  {
    hide Served, Missed, Rest, TextbookStep, Queued, Passing;
    var q, p, p' := Rest(k, i - 1), Passing(k, i), Passing(k, i + 1);
    ServedConcat(q, k, [p] + [p], [p']);
    ServedConcat(q, k, [p], [p]);
    FirstOfBlock(k, i);
    ServedOne(q, k, p);
    SecondOfBlock(k, i);
    ServedOne(q[1..] + [Entry(p, 0)], k, p);
    ThirdOfBlock(k, i);
    ServedOne(q[1..] + [Entry(p, 1)], k, p');
  }

  /** The fixed pages but the last: they fill free places in the first block, and replace unmarked pages later. */
  lemma FixedOfFirst(k: nat, q: seq<Entry>)
    requires k >= 2 && Marked3(q, k, 0, [])
    ensures Served(q, k, Fixed(k - 2)) == q + Fresh(Fixed(k - 2)) && Missed(q, k, Fixed(k - 2)) == k - 2
  {
    Fills(q, k, Fixed(k - 2));
  }

  lemma FixedOfNext(k: nat, i: nat, q: seq<Entry>)
    requires k >= 2 && i > 0 && Marked3(q, k, i, Rest(k, i - 1)[2..])
    ensures Served(q, k, Fixed(k - 2)) == q[k - 2..] + Fresh(Fixed(k - 2)) && Missed(q, k, Fixed(k - 2)) == k - 2
  {
    var ps := Fixed(k - 2);
    forall n | 0 <= n < k - 2 ensures q[n].bit == 0 && !Queued(q[n..], ps[n]) {
      RestPages(k, i - 1, n + 2);
      assert q[n] == Rest(k, i - 1)[n + 2];
      forall j | 0 <= j < |q[n..]| ensures q[n..][j].page != n {
        if n + j < k - 2 {
          RestPages(k, i - 1, n + j + 2);
          assert q[n..][j] == Rest(k, i - 1)[n + j + 2];
        }
      }
    }
    Replaces(q, k, ps);
  }

  /** One whole block: `k + 1` faults, and the queue is at rest again. */
  lemma BlockFaults(k: nat, i: nat, q: seq<Entry>)
    requires k >= 2 && q == if i == 0 then [] else Rest(k, i - 1)
    ensures Served(q, k, Block(k, i)) == Rest(k, i) && Missed(q, k, Block(k, i)) == k + 1
  {
    hide Served, Missed, Rest, TextbookStep, Queued;
    var head := [Passing(k, i)] + [Passing(k, i)] + [Passing(k, i + 1)];
    ServedConcat(q, k, head + Fixed(k - 2), [k - 2]);
    ServedConcat(q, k, head, Fixed(k - 2));
    var q1 := Served(q, k, head);
    if i == 0 {
      FirstThree(k);
      FixedOfFirst(k, q1);
    } else {
      NextThree(k, i);
      FixedOfNext(k, i, q1);
    }
    var q2 := [Entry(Passing(k, i), 1)] + [Entry(Passing(k, i + 1), 0)] + Fresh(Fixed(k - 2));
    assert Served(q1, k, Fixed(k - 2)) == q2;
    LastOfBlock(k, i);
    ServedOne(q2, k, k - 2);
  }

  // ----- many blocks -----

  function Blocks(k: nat, m: nat): (ps: seq<int>)
    requires k >= 2
    ensures m > 0 ==> |ps| >= k + 2
  {
    if m == 0 then [] else Blocks(k, m - 1) + Block(k, m - 1)
  }

  lemma {:induction false} BlocksFault(k: nat, m: nat)
    requires k >= 2
    ensures Served([], k, Blocks(k, m)) == if m == 0 then [] else Rest(k, m - 1)
    ensures Missed([], k, Blocks(k, m)) == m * (k + 1)
    decreases m
  {
    hide Served, Missed, Rest, Block;
    if m == 0 {
      ServedNone(k);
    } else {
      BlocksFault(k, m - 1);
      ServedConcat([], k, Blocks(k, m - 1), Block(k, m - 1));
      BlockFaults(k, m - 1, Served([], k, Blocks(k, m - 1)));
      OneMore(m, k + 1);
    }
  }

  lemma ServedNone(k: nat)
    requires k >= 1
    ensures Served([], k, []) == [] && Missed([], k, []) == 0
  {
  }

  lemma OneMore(m: nat, x: nat)
    requires m > 0
    ensures (m - 1) * x + x == m * x
  {
  }

  lemma {:induction false} BlocksAreNatural(k: nat, m: nat)
    requires k >= 2
    ensures PageNumbers(Blocks(k, m))
    decreases m
  {
    if m > 0 {
      BlocksAreNatural(k, m - 1);
      var block := Block(k, m - 1);
      forall j | 0 <= j < k + 2 ensures block[j] >= 0 {
        BlockAt(k, m - 1, j);
      }
    }
  }

  // ----- a schedule that keeps the fixed pages -----

  /** The fixed pages below `n` and the passing page `i`. */
  ghost function Held(k: nat, n: nat, i: nat): (x: set<int>)
    requires k >= 2 && n < k
    ensures |x| == n + 1
  {
    DistinctCount(Fixed(n));
    var fixed := set x | x in Fixed(n);
    assert Passing(k, i) !in fixed;
    fixed + {Passing(k, i)}
  }

  lemma HeldHas(k: nat, n: nat, i: nat, x: int)
    requires k >= 2 && n < k
    ensures x in Held(k, n, i) <==> 0 <= x < n || x == Passing(k, i)
  {
    assert 0 <= x < n ==> Fixed(n)[x] == x;
  }

  /** The resident set before reference `j` of the first block. */
  ghost function FirstHeld(k: nat, j: nat): set<int>
    requires k >= 2 && j <= k + 2
  {
    if j == 0 then {} else if j <= 2 then Held(k, 0, 0) else Held(k, j - 3, 1)
  }

  lemma FirstMoves(k: nat, j: nat)
    requires k >= 2 && j < k + 2
    ensures Moves(FirstHeld(k, j), Block(k, 0)[j], FirstHeld(k, j + 1), k)
  {
    hide Held;
    forall n, i, x | 0 <= n < k ensures x in Held(k, n, i) <==> 0 <= x < n || x == Passing(k, i) {
      HeldHas(k, n, i, x);
    }
    BlockAt(k, 0, j);
  }

  lemma BlockAt(k: nat, i: nat, j: nat)
    requires k >= 2 && j < k + 2
    ensures Block(k, i)[j] == if j < 2 then Passing(k, i) else if j == 2 then Passing(k, i + 1) else j - 3
  {
  }

  /** ... and before reference `j` of a later block: one fault, on the new passing page. */
  ghost function NextHeld(k: nat, i: nat, j: nat): set<int>
    requires k >= 2 && j <= k + 2
  {
    if j <= 2 then Held(k, k - 1, i) else Held(k, k - 1, i + 1)
  }

  lemma NextMoves(k: nat, i: nat, j: nat)
    requires k >= 2 && j < k + 2
    ensures Moves(NextHeld(k, i, j), Block(k, i)[j], NextHeld(k, i, j + 1), k)
    ensures Block(k, i)[j] in NextHeld(k, i, j) || j == 2
  {
    hide Held;
    forall n, a, x | 0 <= n < k ensures x in Held(k, n, a) <==> 0 <= x < n || x == Passing(k, a) {
      HeldHas(k, n, a, x);
    }
    BlockAt(k, i, j);
  }

  /** A schedule over `k` frames that after the first block faults once a block. */
  lemma {:induction false} KeepFixed(k: nat, m: nat) returns (t: seq<set<int>>)
    requires k >= 2 && m >= 1
    ensures IsSchedule(Blocks(k, m), k, t) && t[|Blocks(k, m)|] == Held(k, k - 1, m)
    ensures Cost(Blocks(k, m), t) <= m + k + 1
    decreases m
  {
    hide Block, Held, Faults, Moves;
    if m == 1 {
      assert Blocks(k, 1) == Block(k, 0) by {
        assert Blocks(k, 0) + Block(k, 0) == Block(k, 0);
      }
      t := FirstBlock(k);
    } else {
      var s := KeepFixed(k, m - 1);
      t := OneMoreBlock(k, m - 1, Blocks(k, m - 1), s);
    }
  }

  lemma FirstBlock(k: nat) returns (t: seq<set<int>>)
    requires k >= 2
    ensures IsSchedule(Block(k, 0), k, t) && t[k + 2] == Held(k, k - 1, 1) && Cost(Block(k, 0), t) <= k + 2
  {
    hide Held, Block, Moves;
    var refs := Block(k, 0);
    t := seq(k + 3, j requires 0 <= j < k + 3 => FirstHeld(k, j));
    forall j | 0 <= j < k + 2 ensures Moves(t[j], refs[j], t[j + 1], k) {
      FirstMoves(k, j);
    }
    FaultsAtMost(refs, t, 0, k + 2, 0);
  }

  lemma OneMoreBlock(k: nat, i: nat, refs: seq<int>, s: seq<set<int>>) returns (t: seq<set<int>>)
    requires k >= 2 && IsSchedule(refs, k, s) && s[|refs|] == Held(k, k - 1, i)
    ensures IsSchedule(refs + Block(k, i), k, t) && t[|refs| + k + 2] == Held(k, k - 1, i + 1)
    ensures Cost(refs + Block(k, i), t) <= Cost(refs, s) + 1
  {
    hide Held, Block, Moves;
    var n, refs' := |refs|, refs + Block(k, i);
    t := s[..n] + seq(k + 3, j requires 0 <= j <= k + 2 => NextHeld(k, i, j));
    assert s <= t by {
      assert s == s[..n] + [s[n]];
    }
    forall j | 0 <= j < |refs'| ensures Moves(t[j], refs'[j], t[j + 1], k) {
      if j < n {
        assert Moves(s[j], refs[j], s[j + 1], k);
      } else {
        NextMoves(k, i, j - n);
      }
    }
    BlockCost(k, i, refs, t);
    hide NextHeld;
    FaultsPrefix(refs, s, refs', t, n);
    FaultsSplit(refs', t, 0, n, |refs'|);
  }

  lemma BlockCost(k: nat, i: nat, refs: seq<int>, t: seq<set<int>>)
    requires k >= 2 && |t| == |refs| + k + 3 && forall j | 0 <= j <= k + 2 :: t[|refs| + j] == NextHeld(k, i, j)
    ensures Faults(refs + Block(k, i), t, |refs|, |refs| + k + 2) <= 1
  {
    hide NextHeld, Block, Faults;
    var n, block := |refs|, Block(k, i);
    var refs' := refs + block;
    forall j | n <= j < n + k + 2 && j != n + 2 ensures refs'[j] in t[j] {
      NextMoves(k, i, j - n);
      assert refs'[j] == block[j - n];
      assert t[n + (j - n)] == NextHeld(k, i, j - n);
    }
    FaultsSplit(refs', t, n, n + 3, n + k + 2);
    FaultsAtMost(refs', t, n + 3, n + k + 2, k - 1);
    FaultsAtMost(refs', t, n, n + 3, 2);
  }

  // ----- against the bound of FIFO and LRU -----

  /** Over `k` frames the method meets the bound that FIFO and LRU meet. */
  ghost predicate MeetsBound(k: nat) {
    forall refs, r, ss, h: nat, t |
      1 <= h <= k && IsSecondChanceRun(refs, k, r, ss) && PageNumbers(refs) && IsSchedule(refs, h, t) ::
      (k - h + 1) * Counted(refs, r, |refs|) <= k * Cost(refs, t)
  }

  /** On `m` blocks Second-Chance pays `m * (k + 1)` faults, where `k` frames can do with `m + k + 1`. */
  lemma WorstCase(k: nat, m: nat, r: Run, ss: seq<State>) returns (t: seq<set<int>>)
    requires k >= 2 && m >= 1 && IsSecondChanceRun(Blocks(k, m), k, r, ss)
    ensures |r.frames| == |Blocks(k, m)| + 1 && Counted(Blocks(k, m), r, |Blocks(k, m)|) == m * (k + 1)
    ensures IsSchedule(Blocks(k, m), k, t) && Cost(Blocks(k, m), t) <= m + k + 1
  {
    hide Blocks, Missed, Served, Faults, Step;
    var refs := Blocks(k, m);
    BlocksAreNatural(k, m);
    SecondChanceIsTheQueue(refs, k, r, ss, |refs|);
    ServedIsTextbook(refs, k, |refs|);
    assert refs[..|refs|] == refs;
    BlocksFault(k, m);
    t := KeepFixed(k, m);
  }

  lemma BreaksBound(k: nat)
    requires k >= 2
    ensures !MeetsBound(k)
  {
    hide Blocks, Faults, Step;
    var m := k * (k + 1) + 1;
    var refs := Blocks(k, m);
    BlocksAreNatural(k, m);
    var r, ss := RunExists(refs, k);
    var t := WorstCase(k, m, r, ss);
    ManyBlocks(k, m, Cost(refs, t));
    assert (k - k + 1) * Counted(refs, r, |refs|) > k * Cost(refs, t);
  }

  lemma ManyBlocks(k: nat, m: nat, cost: nat)
    requires m == k * (k + 1) + 1 && cost <= m + k + 1
    ensures m * (k + 1) > k * cost
  {
    Scale(k, k, cost, m + k + 1);
    assert k * (m + k + 1) == k * m + k * (k + 1);
    assert m * (k + 1) == k * m + m;
  }

  /** Second-Chance meets the bound of FIFO and LRU with one frame only. */
  lemma MeetsBoundForOneFrameOnly(k: nat)
    requires k >= 1
    ensures MeetsBound(k) <==> k == 1
  {
    if k == 1 {
      forall refs, r, ss, h: nat, t |
        1 <= h <= 1 && IsSecondChanceRun(refs, 1, r, ss) && PageNumbers(refs) && IsSchedule(refs, h, t)
        ensures (1 - h + 1) * Counted(refs, r, |refs|) <= 1 * Cost(refs, t)
      {
        RunIsSchedule(refs, 1, r);
        AlwaysConservativeForOne(refs, 1, Residents(r));
        ConservativeIsCompetitive(refs, 1, Residents(r), h, t, |refs|);
        CountedIsCost(refs, 1, r, |refs|);
      }
    } else {
      BreaksBound(k);
    }
  }
}
