/**
  The CFS bandwidth check on task groups (cgroup-v1 rule): the walk over the hierarchy accepts
  a new quota exactly when no group asks for more than its nearest limited ancestor allows.
 */
module Quota {
  import opened Basics
  import opened TaskGroups

  const RUNTIME_INF := U64 - 1
  /** RUNTIME_INF once it is stored in a signed 64-bit variable. */
  const NO_LIMIT := -1
  const NSEC_PER_USEC := 1000
  const BW_UNIT := 0x10_0000
  const MIN_CFS_QUOTA_PERIOD := 1_000_000
  const MAX_CFS_QUOTA_PERIOD := 1_000_000_000
  /** The largest quota, 2^44 - 1 microseconds: shifted by 20 bits it still fits 64. */
  const MAX_CFS_RUNTIME := 0xFFF_FFFF_FFFF * NSEC_PER_USEC

  /** Period and quota of a group in nanoseconds, unsigned 64-bit. */
  datatype Bandwidth = Bandwidth(period: nat, quota: nat)

  /** The group being changed, with its new period and quota in microseconds (quota may be RUNTIME_INF). */
  datatype Proposal = Proposal(tg: nat, period: nat, quota: nat)

  function ToRatio(period: nat, runtime: nat): nat {
    if runtime == RUNTIME_INF then BW_UNIT
    else if period == 0 then 0
    else ((runtime * BW_UNIT) % U64) / period
  }

  /** The quota of a group relative to its period. */
  function Normalize(bw: map<nat, Bandwidth>, d: Proposal, tg: nat): nat
    requires tg in bw
  {
    var b := bw[tg];
    var period := if tg == d.tg then d.period else b.period / NSEC_PER_USEC;
    var quota := if tg == d.tg then d.quota else if b.quota == RUNTIME_INF then RUNTIME_INF else b.quota / NSEC_PER_USEC;
    if quota == RUNTIME_INF then RUNTIME_INF else ToRatio(period, quota)
  }

  /** What the check reads as the group's own limit; every group must have a bandwidth record. */
  function Own(bw: map<nat, Bandwidth>, d: Proposal, tg: nat): int
  {
    if tg in bw then ToSigned(Normalize(bw, d, tg)) else NO_LIMIT
  }

  /** What the walk is told about a group that is to get this period and quota, both in nanoseconds. */
  function Request(tg: nat, period: nat, quota: nat): Proposal {
    if quota != RUNTIME_INF then Proposal(tg, period / NSEC_PER_USEC, quota / NSEC_PER_USEC)
    else Proposal(tg, period, quota)
  }

  /** The ranges that the setters admit. */
  predicate InRange(b: Bandwidth) {
    && MIN_CFS_QUOTA_PERIOD <= b.period <= MAX_CFS_QUOTA_PERIOD
    && (b.quota == RUNTIME_INF || b.quota <= MAX_CFS_RUNTIME)
  }

  /** The share of a group: quota over period, both in microseconds, in units of 2^-20, rounded down. */
  function Ratio(b: Bandwidth): int {
    if b.quota == RUNTIME_INF || b.period < NSEC_PER_USEC then NO_LIMIT
    else (b.quota / NSEC_PER_USEC) * BW_UNIT / (b.period / NSEC_PER_USEC)
  }

  /**
    Within those ranges the shift does not wrap, so a limited group is never taken for an
    unlimited one and its normalised quota is its share, the group being changed included.
   */
  lemma NormalizeIsExact(bw: map<nat, Bandwidth>, tg: nat, period: nat, quota: nat, g: nat)
    requires g in bw && InRange(bw[tg := Bandwidth(period, quota)][g])
    ensures var b := bw[tg := Bandwidth(period, quota)][g];
      && Own(bw, Request(tg, period, quota), g) == Ratio(b)
      && (Ratio(b) == NO_LIMIT <==> b.quota == RUNTIME_INF)
  {
    var b := bw[tg := Bandwidth(period, quota)][g];
    if b.quota != RUNTIME_INF {
      var q, p := b.quota / NSEC_PER_USEC, b.period / NSEC_PER_USEC;
      assert q * BW_UNIT < U64;
      assert (q * BW_UNIT) % U64 == q * BW_UNIT;
      QuotientShrinks(q * BW_UNIT, p);
    }
  }

  lemma QuotientShrinks(x: nat, p: nat)
    requires p >= 1000
    ensures 0 <= x / p <= x / 1000
  {
    var q := x / p;
    assert q * p <= x;
    assert q * 1000 <= q * p;
  }

  // ----- the rule -----

  type Quotas = map<nat, int>

  /** The limit in force at a group: its own, else that of the nearest limited ancestor below the root. */
  ghost function Limit(h: Hierarchy, rank: map<nat, nat>, bw: map<nat, Bandwidth>, d: Proposal, g: nat): int
    requires Tree(h, rank) && g in h.children
    decreases rank[h.root] - rank[g]
  {
    if g == h.root then NO_LIMIT
    else if Own(bw, d, g) != NO_LIMIT then Own(bw, d, g)
    else
      Rises(h, rank, g);
      Limit(h, rank, bw, d, h.parent[g])
  }

  /** A group's own limit is at most the limit it would inherit. */
  ghost predicate Fits(h: Hierarchy, rank: map<nat, nat>, bw: map<nat, Bandwidth>, d: Proposal, g: nat)
    requires Tree(h, rank) && g in h.children
  {
    g == h.root || Own(bw, d, g) == NO_LIMIT ||
    var inherited := Limit(h, rank, bw, d, h.parent[g]);
    inherited == NO_LIMIT || Own(bw, d, g) <= inherited
  }

  /** Where every group fits, limits never increase going down, however far. */
  lemma {:induction false} LimitsNeverIncrease(h: Hierarchy, rank: map<nat, nat>, bw: map<nat, Bandwidth>, d: Proposal, a: nat, g: nat)
    requires Tree(h, rank) && a in h.children && g in h.children && g in Subtree(h, rank, a)
    requires forall m | m in h.children :: Fits(h, rank, bw, d, m)
    requires Limit(h, rank, bw, d, a) != NO_LIMIT
    ensures Limit(h, rank, bw, d, g) != NO_LIMIT && Limit(h, rank, bw, d, g) <= Limit(h, rank, bw, d, a)
    decreases rank[h.root] - rank[g]
  {
    if g != a {
      SubtreeBelow(h, rank, a, g);
      Rises(h, rank, g);
      LimitsNeverIncrease(h, rank, bw, d, a, h.parent[g]);
      assert Fits(h, rank, bw, d, g);
    }
  }

  // ----- the rule in shares -----

  /** Every group has a bandwidth record, in range. */
  ghost predicate AllInRange(h: Hierarchy, bw: map<nat, Bandwidth>) {
    forall g | g in h.children :: g in bw && InRange(bw[g])
  }

  /** The nearest limited group from `g` up, below the root. */
  ghost function Ruler(h: Hierarchy, rank: map<nat, nat>, bw: map<nat, Bandwidth>, g: nat): (r: Option<nat>)
    requires Tree(h, rank) && g in h.children && AllInRange(h, bw)
    ensures r.Some? ==> r.value in bw
    decreases rank[h.root] - rank[g]
  {
    if g == h.root then None
    else if bw[g].quota != RUNTIME_INF then Some(g)
    else
      Rises(h, rank, g);
      Ruler(h, rank, bw, h.parent[g])
  }

  /** The share in force at a group: that of the nearest limited group from it up. */
  ghost function Share(h: Hierarchy, rank: map<nat, nat>, bw: map<nat, Bandwidth>, g: nat): int
    requires Tree(h, rank) && g in h.children && AllInRange(h, bw)
  {
    match Ruler(h, rank, bw, g)
    case None => NO_LIMIT
    case Some(r) => Ratio(bw[r])
  }

  /** A limited group has at most the share of its nearest limited ancestor. */
  ghost predicate Modest(h: Hierarchy, rank: map<nat, nat>, bw: map<nat, Bandwidth>, g: nat)
    requires Tree(h, rank) && g in h.children && AllInRange(h, bw)
  {
    g == h.root || bw[g].quota == RUNTIME_INF || Ruler(h, rank, bw, h.parent[g]).None?
    || Ratio(bw[g]) <= Share(h, rank, bw, h.parent[g])
  }

  ghost predicate Schedulable(h: Hierarchy, rank: map<nat, nat>, bw: map<nat, Bandwidth>)
    requires Tree(h, rank) && AllInRange(h, bw)
  {
    forall g | g in h.children :: Modest(h, rank, bw, g)
  }

  lemma {:induction false} LimitIsShare(h: Hierarchy, rank: map<nat, nat>, bw: map<nat, Bandwidth>, tg: nat, period: nat, quota: nat, g: nat)
    requires Tree(h, rank) && g in h.children && h.children.Keys <= bw.Keys
    requires AllInRange(h, bw[tg := Bandwidth(period, quota)])
    ensures Limit(h, rank, bw, Request(tg, period, quota), g) == Share(h, rank, bw[tg := Bandwidth(period, quota)], g)
    decreases rank[h.root] - rank[g]
  {
    if g != h.root {
      NormalizeIsExact(bw, tg, period, quota, g);
      Rises(h, rank, g);
      LimitIsShare(h, rank, bw, tg, period, quota, h.parent[g]);
    }
  }

  /** In range, the check compares shares, as they would be after the change. */
  lemma FitsIsModest(h: Hierarchy, rank: map<nat, nat>, bw: map<nat, Bandwidth>, tg: nat, period: nat, quota: nat, g: nat)
    requires Tree(h, rank) && g in h.children && h.children.Keys <= bw.Keys
    requires AllInRange(h, bw[tg := Bandwidth(period, quota)])
    ensures Fits(h, rank, bw, Request(tg, period, quota), g) <==> Modest(h, rank, bw[tg := Bandwidth(period, quota)], g)
  {
    if g != h.root {
      NormalizeIsExact(bw, tg, period, quota, g);
      Rises(h, rank, g);
      LimitIsShare(h, rank, bw, tg, period, quota, h.parent[g]);
      RulerIsLimited(h, rank, bw[tg := Bandwidth(period, quota)], h.parent[g]);
    }
  }

  lemma {:induction false} RulerIsLimited(h: Hierarchy, rank: map<nat, nat>, bw: map<nat, Bandwidth>, g: nat)
    requires Tree(h, rank) && g in h.children && AllInRange(h, bw)
    ensures var r := Ruler(h, rank, bw, g); r.Some? ==> Ratio(bw[r.value]) != NO_LIMIT
    decreases rank[h.root] - rank[g]
  {
    if g != h.root {
      Rises(h, rank, g);
      if bw[g].quota == RUNTIME_INF {
        RulerIsLimited(h, rank, bw, h.parent[g]);
      } else {
        RatioIsNatural(bw[g]);
      }
    }
  }

  lemma RatioIsNatural(b: Bandwidth)
    requires InRange(b) && b.quota != RUNTIME_INF
    ensures Ratio(b) >= 0
  {
    QuotientShrinks((b.quota / NSEC_PER_USEC) * BW_UNIT, b.period / NSEC_PER_USEC);
  }

  /**
    Rounding: a group whose true fraction is at most another's always passes against it, and one that
    passes exceeds it by less than 2^-20.
   */
  lemma SharesAgainstFractions(b: Bandwidth, c: Bandwidth)
    requires InRange(b) && InRange(c) && b.quota != RUNTIME_INF && c.quota != RUNTIME_INF
    ensures var q, p, q', p' := b.quota / NSEC_PER_USEC, b.period / NSEC_PER_USEC, c.quota / NSEC_PER_USEC, c.period / NSEC_PER_USEC;
      && p > 0 && p' > 0
      && (q * p' <= q' * p ==> Ratio(b) <= Ratio(c))
      && (Ratio(b) <= Ratio(c) ==> q * BW_UNIT * p' < (q' * BW_UNIT + p') * p)
  {
    var q, p, q', p' := b.quota / NSEC_PER_USEC, b.period / NSEC_PER_USEC, c.quota / NSEC_PER_USEC, c.period / NSEC_PER_USEC;
    Floor(q * BW_UNIT, p);
    Floor(q' * BW_UNIT, p');
    if q * p' <= q' * p {
      InUnits(q, p', q', p);
      FractionsFloor(q * BW_UNIT, p, q' * BW_UNIT, p', Ratio(b), Ratio(c));
    }
    if Ratio(b) <= Ratio(c) {
      FloorsFraction(q * BW_UNIT, p, q' * BW_UNIT, p', Ratio(b), Ratio(c));
    }
  }

  lemma InUnits(q: nat, p': nat, q': nat, p: nat)
    requires q * p' <= q' * p
    ensures q * BW_UNIT * p' <= q' * BW_UNIT * p
  {
    Times(q * p', q' * p, BW_UNIT);
    assert q * BW_UNIT * p' == q * p' * BW_UNIT && q' * BW_UNIT * p == q' * p * BW_UNIT;
  }

  lemma Floor(x: nat, p: nat)
    requires p > 0
    ensures (x / p) * p <= x < (x / p + 1) * p
  {
    var r := x / p;
    assert x == r * p + x % p;
    assert (r + 1) * p == r * p + p;
  }

  lemma FractionsFloor(x: nat, p: nat, y: nat, p': nat, r: int, r': int)
    requires p > 0 && p' > 0 && x * p' <= y * p && r * p <= x && y < (r' + 1) * p'
    ensures r <= r'
  {
    Regroup(r, p, p');
    Regroup(r' + 1, p', p);
    Times(r * p, x, p');
    TimesStrictly(y, (r' + 1) * p', p);
    if r > r' {
      Times(r' + 1, r, p * p');
    }
  }

  lemma FloorsFraction(x: nat, p: nat, y: nat, p': nat, r: int, r': int)
    requires p > 0 && p' > 0 && r <= r' && x < (r + 1) * p && r' * p' <= y
    ensures x * p' < (y + p') * p
  {
    Regroup(r + 1, p, p');
    Regroup(r' + 1, p', p);
    OneMoreTime(r', p');
    TimesStrictly(x, (r + 1) * p, p');
    Times(r + 1, r' + 1, p * p');
    Times((r' + 1) * p', y + p', p);
  }

  lemma Regroup(a: int, b: int, c: int)
    ensures a * b * c == a * (b * c) && b * c == c * b
  {
  }

  lemma OneMoreTime(a: int, b: int)
    ensures (a + 1) * b == a * b + b
  {
  }

  lemma Times(a: int, b: int, c: nat)
    requires a <= b
    ensures a * c <= b * c
  {
  }

  lemma TimesStrictly(a: int, b: int, c: nat)
    requires a < b && c > 0
    ensures a * c < b * c
  {
  }

  // ----- the rule as a comparison of any two groups -----

  predicate Limited(h: Hierarchy, bw: map<nat, Bandwidth>, g: nat) {
    g in h.children && g != h.root && g in bw && bw[g].quota != RUNTIME_INF
  }

  /** No limited group has a larger share than a limited group above it, near or far. */
  ghost predicate NoneExceeds(h: Hierarchy, rank: map<nat, nat>, bw: map<nat, Bandwidth>)
    requires Tree(h, rank)
  {
    forall a, g | Limited(h, bw, a) && Limited(h, bw, g) && g in Subtree(h, rank, a) :: Ratio(bw[g]) <= Ratio(bw[a])
  }

  /** `share` is the smallest share of a limited group from `g` up, and no limit if there is none. */
  ghost predicate SmallestAbove(h: Hierarchy, rank: map<nat, nat>, bw: map<nat, Bandwidth>, g: nat, share: int)
    requires Tree(h, rank)
  {
    && (forall a | Limited(h, bw, a) && g in Subtree(h, rank, a) :: 0 <= share <= Ratio(bw[a]))
    && (share == NO_LIMIT || exists a :: Limited(h, bw, a) && g in Subtree(h, rank, a) && share == Ratio(bw[a]))
  }

  lemma {:induction false} RulerIsAbove(h: Hierarchy, rank: map<nat, nat>, bw: map<nat, Bandwidth>, g: nat)
    requires Tree(h, rank) && g in h.children && AllInRange(h, bw)
    ensures var r := Ruler(h, rank, bw, g);
      r.Some? ==> Limited(h, bw, r.value) && g in Subtree(h, rank, r.value) && Share(h, rank, bw, g) == Ratio(bw[r.value]) >= 0
    decreases rank[h.root] - rank[g]
  {
    if g != h.root {
      if bw[g].quota != RUNTIME_INF {
        RatioIsNatural(bw[g]);
      } else {
        Rises(h, rank, g);
        RulerIsAbove(h, rank, bw, h.parent[g]);
        var r := Ruler(h, rank, bw, h.parent[g]);
        if r.Some? {
          SubtreeClosed(h, rank, r.value, h.parent[g], g);
        }
      }
    }
  }

  lemma {:induction false} SharesNeverIncrease(h: Hierarchy, rank: map<nat, nat>, bw: map<nat, Bandwidth>, a: nat, g: nat)
    requires Tree(h, rank) && AllInRange(h, bw) && Schedulable(h, rank, bw) && Limited(h, bw, a)
    requires g in h.children && g in Subtree(h, rank, a)
    ensures g != h.root && Ruler(h, rank, bw, g).Some? && Share(h, rank, bw, g) <= Ratio(bw[a])
    decreases rank[h.root] - rank[g]
  {
    SubtreeBelow(h, rank, a, g);
    Rises(h, rank, a);
    if g != a {
      Rises(h, rank, g);
      SharesNeverIncrease(h, rank, bw, a, h.parent[g]);
      assert Modest(h, rank, bw, g);
    }
  }

  /** Comparing with the nearest limited ancestor only is as good as comparing with all of them. */
  lemma SchedulableIsPairwise(h: Hierarchy, rank: map<nat, nat>, bw: map<nat, Bandwidth>)
    requires Tree(h, rank) && AllInRange(h, bw)
    ensures Schedulable(h, rank, bw) <==> NoneExceeds(h, rank, bw)
  {
    hide Subtree, Tree;
    if Schedulable(h, rank, bw) {
      forall a, g | Limited(h, bw, a) && Limited(h, bw, g) && g in Subtree(h, rank, a) ensures Ratio(bw[g]) <= Ratio(bw[a]) {
        SharesNeverIncrease(h, rank, bw, a, g);
      }
    }
    if NoneExceeds(h, rank, bw) {
      forall g | g in h.children ensures Modest(h, rank, bw, g) {
        PairwiseIsModest(h, rank, bw, g);
      }
    }
  }

  lemma PairwiseIsModest(h: Hierarchy, rank: map<nat, nat>, bw: map<nat, Bandwidth>, g: nat)
    requires Tree(h, rank) && AllInRange(h, bw) && NoneExceeds(h, rank, bw) && g in h.children
    ensures Modest(h, rank, bw, g)
  {
    if Limited(h, bw, g) {
      Rises(h, rank, g);
      RulerIsAbove(h, rank, bw, h.parent[g]);
      var r := Ruler(h, rank, bw, h.parent[g]);
      if r.Some? {
        SubtreeClosed(h, rank, r.value, h.parent[g], g);
      }
    }
  }

  /** Where the hierarchy is schedulable, the nearest limit is the smallest. */
  lemma ShareIsSmallest(h: Hierarchy, rank: map<nat, nat>, bw: map<nat, Bandwidth>, g: nat)
    requires Tree(h, rank) && AllInRange(h, bw) && Schedulable(h, rank, bw) && g in h.children
    ensures SmallestAbove(h, rank, bw, g, Share(h, rank, bw, g))
  {
    hide Subtree, Tree, Schedulable, AllInRange;
    RulerIsAbove(h, rank, bw, g);
    forall a | Limited(h, bw, a) && g in Subtree(h, rank, a) ensures 0 <= Share(h, rank, bw, g) <= Ratio(bw[a]) {
      SharesNeverIncrease(h, rank, bw, a, g);
    }
  }

  // ----- the visitor -----

  /** The down visitor on the hierarchical quotas computed so far. */
  function Check(h: Hierarchy, bw: map<nat, Bandwidth>, d: Proposal, hq: Quotas, tg: nat): (Quotas, int) {
    if tg !in h.parent then (hq[tg := NO_LIMIT], 0)
    else
      var quota := Own(bw, d, tg);
      var parentQuota := if h.parent[tg] in hq then hq[h.parent[tg]] else 0;
      if quota == NO_LIMIT then (hq[tg := parentQuota], 0)
      else if parentQuota != NO_LIMIT && quota > parentQuota then (hq, -EINVAL)
      else (hq[tg := quota], 0)
  }

  function Checker(h: Hierarchy, bw: map<nat, Bandwidth>, d: Proposal): Visitor<Quotas> {
    (hq: Quotas, tg: nat) => Check(h, bw, d, hq, tg)
  }

  function Nop(): Visitor<Quotas> {
    (hq: Quotas, tg: nat) => (hq, 0)
  }

  ghost function Checked(h: Hierarchy, bw: map<nat, Bandwidth>, d: Proposal, es: seq<Event>, hq: Quotas): Walked<Quotas> {
    Calls(es, Checker(h, bw, d), Nop(), hq)
  }

  /** The parent's hierarchical quota is in place. */
  ghost predicate Ready(h: Hierarchy, rank: map<nat, nat>, bw: map<nat, Bandwidth>, d: Proposal, hq: Quotas, g: nat)
    requires Tree(h, rank) && g in h.children
  {
    g == h.root || (h.parent[g] in hq && hq[h.parent[g]] == Limit(h, rank, bw, d, h.parent[g]))
  }

  ghost predicate Groups(h: Hierarchy, groups: set<nat>) {
    forall m | m in groups :: m in h.children
  }

  ghost predicate AllFit(h: Hierarchy, rank: map<nat, nat>, bw: map<nat, Bandwidth>, d: Proposal, groups: set<nat>)
    requires Tree(h, rank) && Groups(h, groups)
  {
    forall m | m in groups :: Fits(h, rank, bw, d, m)
  }

  /** The walk has put the limits of `groups` in place and kept or corrected all others. */
  ghost predicate Settled(h: Hierarchy, rank: map<nat, nat>, bw: map<nat, Bandwidth>, d: Proposal, before: Quotas, after: Quotas, groups: set<nat>)
    requires Tree(h, rank) && Groups(h, groups)
  {
    && (forall m | m in groups :: m in after && after[m] == Limit(h, rank, bw, d, m))
    && (forall m | m in before && m !in groups :: m in after && after[m] == before[m])
  }

  /** The outcome that the rule prescribes for a walk over `groups`. */
  ghost predicate Decides(h: Hierarchy, rank: map<nat, nat>, bw: map<nat, Bandwidth>, d: Proposal, hq: Quotas, w: Walked<Quotas>, groups: set<nat>)
    requires Tree(h, rank)
  {
    && Groups(h, groups)
    && (w.ret == 0 <==> AllFit(h, rank, bw, d, groups))
    && (w.ret == 0 || w.ret == -EINVAL)
    && (w.ret == 0 ==> Settled(h, rank, bw, d, hq, w.data, groups))
  }

  lemma CheckedOne(h: Hierarchy, bw: map<nat, Bandwidth>, d: Proposal, e: Event, hq: Quotas)
    ensures var (hq', ret) := if e.Down? then Check(h, bw, d, hq, e.group) else (hq, 0);
      Checked(h, bw, d, [e], hq) == Walked(hq', ret, [e])
  {
    var down, up := Checker(h, bw, d), Nop();
    assert down(hq, e.group) == Check(h, bw, d, hq, e.group);
    assert up(hq, e.group) == (hq, 0);
    assert [e][1..] == [];
    var (hq', ret) := Call(e, down, up, hq);
    assert Calls([], down, up, hq') == Walked(hq', 0, []);
  }

  lemma DecidesOne(h: Hierarchy, rank: map<nat, nat>, bw: map<nat, Bandwidth>, d: Proposal, hq: Quotas, g: nat)
    requires Tree(h, rank) && g in h.children && Ready(h, rank, bw, d, hq, g)
    ensures Decides(h, rank, bw, d, hq, Checked(h, bw, d, [Down(g)], hq), {g})
  {
    if g != h.root {
      Rises(h, rank, g);
    }
    CheckedOne(h, bw, d, Down(g), hq);
  }

  lemma DecidesThen(h: Hierarchy, rank: map<nat, nat>, bw: map<nat, Bandwidth>, d: Proposal, hq: Quotas,
                    a: seq<Event>, x: set<nat>, b: seq<Event>, y: set<nat>)
    requires Tree(h, rank)
    requires Decides(h, rank, bw, d, hq, Checked(h, bw, d, a, hq), x)
    requires var w := Checked(h, bw, d, a, hq);
      Groups(h, y) && (w.ret == 0 ==> Decides(h, rank, bw, d, w.data, Checked(h, bw, d, b, w.data), y))
    ensures Decides(h, rank, bw, d, hq, Checked(h, bw, d, a + b, hq), x + y)
  {
    CallsConcat(a, b, Checker(h, bw, d), Nop(), hq);
  }

  lemma {:induction false} SubtreeGroups(h: Hierarchy, rank: map<nat, nat>, g: nat)
    requires Tree(h, rank) && g in h.children
    ensures Groups(h, Subtree(h, rank, g))
    decreases rank[g], |h.children[g]| + 1
  {
    SubtreeFromGroups(h, rank, g, 0);
  }

  lemma {:induction false} SubtreeFromGroups(h: Hierarchy, rank: map<nat, nat>, g: nat, i: nat)
    requires Tree(h, rank) && g in h.children && i <= |h.children[g]|
    ensures Groups(h, SubtreeFrom(h, rank, g, i))
    decreases rank[g], |h.children[g]| - i
  {
    if i < |h.children[g]| {
      assert ChildAt(h, rank, g, i);
      SubtreeGroups(h, rank, h.children[g][i]);
      SubtreeFromGroups(h, rank, g, i + 1);
    }
  }

  lemma {:induction false} CheckSubtree(h: Hierarchy, rank: map<nat, nat>, bw: map<nat, Bandwidth>, d: Proposal, g: nat, hq: Quotas)
    requires Tree(h, rank) && g in h.children && Ready(h, rank, bw, d, hq, g)
    ensures Decides(h, rank, bw, d, hq, Checked(h, bw, d, Order(h, rank, g), hq), Subtree(h, rank, g))
    decreases rank[g], |h.children[g]| + 1
  {
    var inner, below := OrderFrom(h, rank, g, 0), SubtreeFrom(h, rank, g, 0);
    DecidesOne(h, rank, bw, d, hq, g);
    SubtreeFromGroups(h, rank, g, 0);
    var w := Checked(h, bw, d, [Down(g)], hq);
    if w.ret == 0 {
      CheckChildren(h, rank, bw, d, g, 0, w.data);
    }
    DecidesThen(h, rank, bw, d, hq, [Down(g)], {g}, inner, below);
    var w' := Checked(h, bw, d, [Down(g)] + inner, hq);
    UpDoesNothing(h, rank, bw, d, g, w'.data);
    DecidesThen(h, rank, bw, d, hq, [Down(g)] + inner, {g} + below, [Up(g)], {});
    assert {g} + below + {} == Subtree(h, rank, g);
  }

  lemma UpDoesNothing(h: Hierarchy, rank: map<nat, nat>, bw: map<nat, Bandwidth>, d: Proposal, g: nat, hq: Quotas)
    requires Tree(h, rank)
    ensures Decides(h, rank, bw, d, hq, Checked(h, bw, d, [Up(g)], hq), {})
  {
    CheckedOne(h, bw, d, Up(g), hq);
  }

  lemma {:induction false} CheckChildren(h: Hierarchy, rank: map<nat, nat>, bw: map<nat, Bandwidth>, d: Proposal, g: nat, i: nat, hq: Quotas)
    requires Tree(h, rank) && g in h.children && i <= |h.children[g]|
    requires g in hq && hq[g] == Limit(h, rank, bw, d, g)
    ensures Decides(h, rank, bw, d, hq, Checked(h, bw, d, OrderFrom(h, rank, g, i), hq), SubtreeFrom(h, rank, g, i))
    decreases rank[g], |h.children[g]| - i
  {
    if i < |h.children[g]| {
      var c := h.children[g][i];
      assert ChildAt(h, rank, g, i);
      CheckSubtree(h, rank, bw, d, c, hq);
      SubtreeFromGroups(h, rank, g, i + 1);
      var w := Checked(h, bw, d, Order(h, rank, c), hq);
      if w.ret == 0 {
        CheckChildren(h, rank, bw, d, g, i + 1, w.data);
      }
      DecidesThen(h, rank, bw, d, hq, Order(h, rank, c), Subtree(h, rank, c), OrderFrom(h, rank, g, i + 1), SubtreeFrom(h, rank, g, i + 1));
    }
  }

  // ----- the whole hierarchy -----

  /** `__cfs_schedulable`: may group `tg` get this period and quota (both in nanoseconds)? */
  method CfsSchedulable(h: Hierarchy, ghost rank: map<nat, nat>, bw: map<nat, Bandwidth>, hq: Quotas, tg: nat, period: nat, quota: nat)
    returns (ret: int, hq': Quotas)
    requires Tree(h, rank) && h.children.Keys <= bw.Keys
    ensures var d := Request(tg, period, quota);
      && (ret == 0 <==> forall g | g in h.children :: Fits(h, rank, bw, d, g))
      && (ret == 0 ==> forall g | g in h.children :: g in hq' && hq'[g] == Limit(h, rank, bw, d, g))
      && (ret != 0 ==> ret == -EINVAL)
  {
    var d := Proposal(tg, period, quota);
    if quota != RUNTIME_INF {
      d := d.(period := d.period / NSEC_PER_USEC);
      d := d.(quota := d.quota / NSEC_PER_USEC);
    }
    ghost var events;
    ret, hq', events := WalkTgTreeFrom(h, rank, h.root, Checker(h, bw, d), Nop(), hq);
    CheckSubtree(h, rank, bw, d, h.root, hq);
    forall g | g in h.children ensures g in Subtree(h, rank, h.root) {
      AllBelowRoot(h, rank, g);
    }
  }

  /**
    `tg_set_cfs_bandwidth`, as far as it decides: a new period and quota are taken exactly when
    they are in range and leave the hierarchy schedulable; otherwise nothing changes.
   */
  method TgSetCfsBandwidth(h: Hierarchy, ghost rank: map<nat, nat>, bw: map<nat, Bandwidth>, hq: Quotas, tg: nat, period: nat, quota: nat)
    returns (ret: int, bw': map<nat, Bandwidth>, hq': Quotas)
    requires Tree(h, rank) && AllInRange(h, bw) && tg in h.children
    ensures ret == 0 || ret == -EINVAL
    ensures ret == 0 <==>
      && tg != h.root && quota >= MIN_CFS_QUOTA_PERIOD && InRange(Bandwidth(period, quota))
      && Schedulable(h, rank, bw[tg := Bandwidth(period, quota)])
    ensures bw' == if ret == 0 then bw[tg := Bandwidth(period, quota)] else bw
    ensures AllInRange(h, bw') && (ret == 0 ==> Schedulable(h, rank, bw'))
    ensures ret == 0 ==> forall g | g in h.children :: g in hq' && hq'[g] == Share(h, rank, bw', g)
    ensures ret == 0 <==>
      && tg != h.root && MIN_CFS_QUOTA_PERIOD <= period <= MAX_CFS_QUOTA_PERIOD
      && (quota == RUNTIME_INF || MIN_CFS_QUOTA_PERIOD <= quota <= MAX_CFS_RUNTIME)
      && NoneExceeds(h, rank, bw[tg := Bandwidth(period, quota)])
    ensures ret == 0 ==> forall g | g in h.children :: g in hq' && SmallestAbove(h, rank, bw', g, hq'[g])
  {
    hide NoneExceeds, SmallestAbove;
    ret, bw', hq' := -EINVAL, bw, hq;
    if tg == h.root {
      return;
    }
    if quota < MIN_CFS_QUOTA_PERIOD || period < MIN_CFS_QUOTA_PERIOD {
      return;
    }
    if period > MAX_CFS_QUOTA_PERIOD {
      return;
    }
    if quota != RUNTIME_INF && quota > MAX_CFS_RUNTIME {
      return;
    }
    ret, hq' := CfsSchedulable(h, rank, bw, hq, tg, period, quota);
    SchedulableIsPairwise(h, rank, bw[tg := Bandwidth(period, quota)]);
    hide Tree, Fits, Modest, Limit, Share;
    forall g | g in h.children
      ensures Fits(h, rank, bw, Request(tg, period, quota), g) <==> Modest(h, rank, bw[tg := Bandwidth(period, quota)], g)
    {
      FitsIsModest(h, rank, bw, tg, period, quota, g);
    }
    forall g | g in h.children
      ensures Limit(h, rank, bw, Request(tg, period, quota), g) == Share(h, rank, bw[tg := Bandwidth(period, quota)], g)
    {
      LimitIsShare(h, rank, bw, tg, period, quota, g);
    }
    if ret == 0 {
      bw' := bw[tg := Bandwidth(period, quota)];
      forall g | g in h.children ensures SmallestAbove(h, rank, bw', g, hq'[g]) {
        ShareIsSmallest(h, rank, bw', g);
      }
    }
  }
}
