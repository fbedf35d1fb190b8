/**
  Effective utilisation clamps of task groups: after one group's request changes, recomputing
  only the part of the hierarchy below it that actually changes is as good as recomputing it all.
 */
module EffectiveClamps {
  import opened Uclamp

  /** The groups in pre-order: the subtree of group `i` is `i..last[i]`; group 0 is the root. */
  datatype Preorder = Preorder(parent: seq<int>, last: seq<nat>)

  ghost predicate Hierarchy(p: Preorder) {
    && |p.parent| == |p.last| >= 1
    && p.parent[0] == -1
    && (forall i | 0 < i < |p.parent| :: 0 <= p.parent[i] < i)
    && (forall i | 0 <= i < |p.last| :: i <= p.last[i] < |p.last|)
    && (forall i, j | 0 <= i < j < |p.last| :: j <= p.last[i] <==> i <= p.parent[j] <= p.last[i])
  }

  function Min(x: nat, y: nat): nat {
    if x <= y then x else y
  }

  // ----- what effective clamps should be -----

  /** A request, capped by the parent's effective clamps, with the protection capped by the limit. */
  function Capped(request: Clamps, isRoot: bool, above: Clamps): Clamps {
    var max := if isRoot then request.max else Min(request.max, above.max);
    var min := if isRoot then request.min else Min(request.min, above.min);
    Clamps(Min(min, max), max)
  }

  /** The effective clamps, computed from the root down. */
  ghost function Effective(p: Preorder, req: seq<Clamps>, i: nat): Clamps
    requires Hierarchy(p) && |req| == |p.parent| && i < |req|
  {
    if i == 0 then Capped(req[0], true, req[0])
    else Capped(req[i], false, Effective(p, req, p.parent[i]))
  }

  /** What group `i` should hold given what its parent holds. */
  ghost function Wanted(p: Preorder, req: seq<Clamps>, eff: seq<Clamps>, i: nat): Clamps
    requires Hierarchy(p) && |req| == |eff| == |p.parent| && i < |req|
  {
    if i == 0 then Capped(req[0], true, req[0]) else Capped(req[i], false, eff[p.parent[i]])
  }

  /** Group `i` agrees with its own request and with what its parent holds. */
  ghost predicate Consistent(p: Preorder, req: seq<Clamps>, eff: seq<Clamps>, i: nat)
    requires Hierarchy(p) && |req| == |eff| == |p.parent| && i < |req|
  {
    eff[i] == Wanted(p, req, eff, i)
  }

  /** Local agreement everywhere is global correctness. */
  lemma {:induction false} ConsistentIsEffective(p: Preorder, req: seq<Clamps>, eff: seq<Clamps>, i: nat)
    requires Hierarchy(p) && |req| == |eff| == |p.parent| && i < |req|
    requires forall j | 0 <= j < |req| :: Consistent(p, req, eff, j)
    ensures eff[i] == Effective(p, req, i)
    decreases i
  {
    assert Consistent(p, req, eff, i);
    if i > 0 {
      ConsistentIsEffective(p, req, eff, p.parent[i]);
    }
  }

  /** Effective clamps never increase going down, and protection never exceeds the limit. */
  lemma {:induction false} EffectiveNeverIncreases(p: Preorder, req: seq<Clamps>, i: nat, j: nat)
    requires Hierarchy(p) && |req| == |p.parent| && i <= j < |req| && j <= p.last[i]
    ensures Effective(p, req, j).max <= Effective(p, req, i).max
    ensures Effective(p, req, j).min <= Effective(p, req, i).min
    ensures Effective(p, req, j).min <= Effective(p, req, j).max
    decreases j
  {
    if i < j {
      EffectiveNeverIncreases(p, req, i, p.parent[j]);
    }
  }

  /** Group `i` is `a` or lies below it. */
  predicate Under(p: Preorder, a: nat, i: nat) {
    a < |p.last| && a <= i <= p.last[a]
  }

  /**
    `c` is what group `i` may use: the lowest UCLAMP_MAX requested by the group and those above it, and
    the lowest request of either kind among them as UCLAMP_MIN.
   */
  ghost predicate MostRestrictive(p: Preorder, req: seq<Clamps>, i: nat, c: Clamps)
    requires |req| == |p.last|
  {
    && (forall a: nat | Under(p, a, i) :: c.max <= req[a].max && c.min <= req[a].min && c.min <= req[a].max)
    && (exists a: nat :: Under(p, a, i) && c.max == req[a].max)
    && (exists a: nat :: Under(p, a, i) && (c.min == req[a].min || c.min == req[a].max))
  }

  lemma UnderParent(p: Preorder, a: nat, i: nat)
    requires Hierarchy(p) && i < |p.last|
    ensures Under(p, a, i) <==> a == i || (i > 0 && Under(p, a, p.parent[i]))
  {
    if a < i {
      assert i <= p.last[a] <==> a <= p.parent[i] <= p.last[a];
    }
  }

  lemma CappedRestricts(p: Preorder, req: seq<Clamps>, i: nat, above: Clamps)
    requires Hierarchy(p) && |req| == |p.last| && i < |req|
    requires i > 0 ==> MostRestrictive(p, req, p.parent[i], above)
    ensures MostRestrictive(p, req, i, Capped(req[i], i == 0, above))
  {
    var c := Capped(req[i], i == 0, above);
    UnderParent(p, i, i);
    forall a: nat ensures Under(p, a, i) <==> a == i || (i > 0 && Under(p, a, p.parent[i])) {
      UnderParent(p, a, i);
    }
    if i > 0 {
      var x: nat :| Under(p, x, p.parent[i]) && above.max == req[x].max;
      var y: nat :| Under(p, y, p.parent[i]) && (above.min == req[y].min || above.min == req[y].max);
      assert Under(p, x, i) && Under(p, y, i);
    }
  }

  /** The most restrictive request on the path from the root wins, and only its values do. */
  lemma {:induction false} EffectiveIsMostRestrictive(p: Preorder, req: seq<Clamps>, i: nat, c: Clamps)
    requires Hierarchy(p) && |req| == |p.parent| && i < |req|
    ensures c == Effective(p, req, i) <==> MostRestrictive(p, req, i, c)
    decreases i
  {
    hide MostRestrictive, Capped;
    if i > 0 {
      EffectiveIsMostRestrictive(p, req, p.parent[i], Effective(p, req, p.parent[i]));
      CappedRestricts(p, req, i, Effective(p, req, p.parent[i]));
    } else {
      CappedRestricts(p, req, i, req[0]);
    }
    if MostRestrictive(p, req, i, c) {
      OneMostRestrictive(p, req, i, c, Effective(p, req, i));
    }
  }

  lemma OneMostRestrictive(p: Preorder, req: seq<Clamps>, i: nat, c: Clamps, d: Clamps)
    requires |req| == |p.last| && MostRestrictive(p, req, i, c) && MostRestrictive(p, req, i, d)
    ensures c == d
  {
    hide Under;
  }

  // ----- which groups' tasks are refreshed -----

  /** One call that refreshes the runnable tasks of a group, for the clamps that changed. */
  datatype Refresh = Refresh(group: nat, min: bool, max: bool)

  /** The calls due for the differences between `a` and `b` among the first `n` groups. */
  ghost function Changes(a: seq<Clamps>, b: seq<Clamps>, n: nat): seq<Refresh>
    requires n <= |a| && n <= |b|
  {
    if n == 0 then []
    else if a[n - 1] == b[n - 1] then Changes(a, b, n - 1)
    else Changes(a, b, n - 1) + [Refresh(n - 1, a[n - 1].min != b[n - 1].min, a[n - 1].max != b[n - 1].max)]
  }

  /** One call for each of the first `n` groups whose clamps changed, in order, naming the clamps that did. */
  ghost predicate OneCallEach(a: seq<Clamps>, b: seq<Clamps>, n: nat, calls: seq<Refresh>)
    requires n <= |a| && n <= |b|
  {
    && (forall k | 0 <= k < |calls| :: var c := calls[k];
          && c.group < n && a[c.group] != b[c.group]
          && (c.min <==> a[c.group].min != b[c.group].min) && (c.max <==> a[c.group].max != b[c.group].max))
    && (forall k, l | 0 <= k < l < |calls| :: calls[k].group < calls[l].group)
    && (forall i | 0 <= i < n && a[i] != b[i] :: exists k :: 0 <= k < |calls| && calls[k].group == i)
  }

  lemma {:induction false} ChangesAreCalls(a: seq<Clamps>, b: seq<Clamps>, n: nat)
    requires n <= |a| && n <= |b|
    ensures OneCallEach(a, b, n, Changes(a, b, n))
  {
    hide OneCallEach;
    if n > 0 {
      ChangesAreCalls(a, b, n - 1);
      if a[n - 1] == b[n - 1] {
        CallKept(a, b, n, Changes(a, b, n - 1));
      } else {
        CallAdded(a, b, n, Changes(a, b, n - 1));
      }
    } else {
      NoCalls(a, b);
    }
  }

  lemma NoCalls(a: seq<Clamps>, b: seq<Clamps>)
    ensures OneCallEach(a, b, 0, [])
  {
  }

  lemma CallKept(a: seq<Clamps>, b: seq<Clamps>, n: nat, calls: seq<Refresh>)
    requires 0 < n <= |a| && n <= |b| && OneCallEach(a, b, n - 1, calls) && a[n - 1] == b[n - 1]
    ensures OneCallEach(a, b, n, calls)
  {
  }

  lemma CallAdded(a: seq<Clamps>, b: seq<Clamps>, n: nat, calls: seq<Refresh>)
    requires 0 < n <= |a| && n <= |b| && OneCallEach(a, b, n - 1, calls) && a[n - 1] != b[n - 1]
    ensures OneCallEach(a, b, n, calls + [Refresh(n - 1, a[n - 1].min != b[n - 1].min, a[n - 1].max != b[n - 1].max)])
  {
    var more := calls + [Refresh(n - 1, a[n - 1].min != b[n - 1].min, a[n - 1].max != b[n - 1].max)];
    forall i | 0 <= i < n && a[i] != b[i] ensures exists k :: 0 <= k < |more| && more[k].group == i {
      if i < n - 1 {
        var k :| 0 <= k < |calls| && calls[k].group == i;
        assert more[k].group == i;
      } else {
        assert more[|calls|].group == i;
      }
    }
  }

  lemma {:induction false} ChangesPrefix(a: seq<Clamps>, b: seq<Clamps>, b': seq<Clamps>, n: nat)
    requires n <= |a| && n <= |b| == |b'| && forall i | 0 <= i < n :: b[i] == b'[i]
    ensures Changes(a, b, n) == Changes(a, b', n)
  {
    if n > 0 {
      ChangesPrefix(a, b, b', n - 1);
    }
  }

  lemma {:induction false} NoChanges(a: seq<Clamps>, b: seq<Clamps>, m: nat, n: nat)
    requires m <= n <= |a| && n <= |b| && forall i | m <= i < n :: a[i] == b[i]
    ensures Changes(a, b, n) == Changes(a, b, m)
    decreases n
  {
    if m < n {
      NoChanges(a, b, m, n - 1);
    }
  }

  // ----- the pruned recomputation -----

  /**
    `i` is the group visited next. A group may disagree only if it is still to be visited and
    its parent has already been: it is then neither pruned nor out of the subtree.
   */
  ghost predicate Unvisited(p: Preorder, top: nat, i: nat, j: nat)
    requires Hierarchy(p) && top < |p.parent| && j < |p.parent|
  {
    i <= j <= p.last[top] && (j == top || top <= p.parent[j] < i)
  }

  ghost predicate UpTo(p: Preorder, req: seq<Clamps>, eff: seq<Clamps>, top: nat, i: nat)
    requires Hierarchy(p) && |req| == |eff| == |p.parent| && top < |req|
  {
    forall j | 0 <= j < |req| :: Consistent(p, req, eff, j) || Unvisited(p, top, i, j)
  }

  /** Visiting a group whose clamps change. */
  lemma VisitChanged(p: Preorder, req: seq<Clamps>, eff: seq<Clamps>, top: nat, i: nat, c: Clamps)
    requires Hierarchy(p) && |req| == |eff| == |p.parent|
    requires top <= i < |req| && i <= p.last[top] && UpTo(p, req, eff, top, i)
    requires c == Wanted(p, req, eff, i)
    ensures UpTo(p, req, eff[i := c], top, i + 1)
  {
    forall j {:trigger p.parent[j]} | 0 <= j < |req|
      ensures Consistent(p, req, eff[i := c], j) || Unvisited(p, top, i + 1, j)
    {
      assert Consistent(p, req, eff, j) || Unvisited(p, top, i, j);
    }
  }

  /** Visiting a group that keeps its clamps: its whole subtree may be skipped. */
  lemma VisitUnchanged(p: Preorder, req: seq<Clamps>, eff: seq<Clamps>, top: nat, i: nat)
    requires Hierarchy(p) && |req| == |eff| == |p.parent|
    requires top <= i < |req| && i <= p.last[top] && UpTo(p, req, eff, top, i) && Consistent(p, req, eff, i)
    ensures UpTo(p, req, eff, top, p.last[i] + 1)
  {
    forall j | 0 <= j < |req|
      ensures Consistent(p, req, eff, j) || Unvisited(p, top, p.last[i] + 1, j)
    {
      assert Consistent(p, req, eff, j) || Unvisited(p, top, i, j);
      assert i < j ==> (j <= p.last[i] <==> i <= p.parent[j] <= p.last[i]);
    }
  }

  /** Subtrees nest. */
  lemma {:induction false} SubtreeInside(p: Preorder, top: nat, i: nat, j: nat)
    requires Hierarchy(p) && top <= i <= j < |p.last| && i <= p.last[top] && j <= p.last[i]
    ensures j <= p.last[top]
    decreases j
  {
    if i < j {
      SubtreeInside(p, top, i, p.parent[j]);
    }
  }

  ghost predicate BucketsRight(n: Buckets, eff: seq<Clamps>, bucketId: seq<Clamps>) {
    && |bucketId| == |eff|
    && forall i | 0 <= i < |eff| :: bucketId[i] == Clamps(BucketId(n, eff[i].min), BucketId(n, eff[i].max))
  }

  /** The clamps of one group, from its request and its parent's effective clamps. */
  method Recompute(p: Preorder, req: seq<Clamps>, eff: array<Clamps>, css: nat) returns (c: Clamps)
    requires Hierarchy(p) && |req| == eff.Length == |p.parent| && css < |req|
    ensures c == Wanted(p, req, eff[..], css)
    ensures c.max <= req[css].max && (c.max == req[css].max || (css > 0 && c.max == eff[p.parent[css]].max))
    ensures css > 0 ==> c.max <= eff[p.parent[css]].max && c.min <= eff[p.parent[css]].min
    ensures c.min <= req[css].min && c.min <= c.max
    ensures c.min == req[css].min || c.min == c.max || (css > 0 && c.min == eff[p.parent[css]].min)
  {
    var eMin, eMax := req[css].min, req[css].max;
    if css > 0 {
      var above := eff[p.parent[css]];
      if eMin > above.min {
        eMin := above.min;
      }
      if eMax > above.max {
        eMax := above.max;
      }
    }
    return Clamps(Min(eMin, eMax), eMax);
  }

  /** Recompute the effective clamps of `top` and of what lies below it, skipping unchanged subtrees. */
  method CpuUtilUpdateEff(p: Preorder, n: Buckets, req: seq<Clamps>, eff: array<Clamps>, bucketId: array<Clamps>, top: nat)
    returns (refreshed: seq<Refresh>)
    requires Hierarchy(p) && |req| == eff.Length == |p.parent| && top < |req|
    requires eff != bucketId && BucketsRight(n, eff[..], bucketId[..])
    requires forall j | 0 <= j < |req| && j != top :: Consistent(p, req, eff[..], j)
    modifies eff, bucketId
    ensures forall i | 0 <= i < |req| :: eff[i] == Effective(p, req, i)
    ensures forall i | 0 <= i < |req| :: MostRestrictive(p, req, i, eff[i])
    ensures BucketsRight(n, eff[..], bucketId[..])
    ensures refreshed == Changes(old(eff[..]), eff[..], |req|)
    ensures OneCallEach(old(eff[..]), eff[..], |req|, refreshed)
  {
    hide MostRestrictive, OneCallEach, Effective, BucketId, Delta, Wanted;
    ghost var before := eff[..];
    refreshed := [];
    var css := top;
    NoChanges(before, eff[..], 0, top);
    while css <= p.last[top]
      invariant top <= css <= p.last[top] + 1
      invariant UpTo(p, req, eff[..], top, css)
      invariant BucketsRight(n, eff[..], bucketId[..])
      invariant eff[css..] == before[css..]
      invariant refreshed == Changes(before, eff[..], css)
      decreases |req| - css
    {
      var c := Recompute(p, req, eff, css);
      assert eff[css] == before[css] by {
        assert eff[css..][0] == before[css..][0];
      }
      if c == eff[css] {
        VisitUnchanged(p, req, eff[..], top, css);
        SubtreeInside(p, top, css, p.last[css]);
        Skip(before, eff[..], css, p.last[css] + 1);
        css := p.last[css] + 1;
      } else {
        VisitChanged(p, req, eff[..], top, css, c);
        ChangesPrefix(before, eff[..], eff[..][css := c], css);
        refreshed := refreshed + [Refresh(css, c.min != eff[css].min, c.max != eff[css].max)];
        eff[css] := c;
        bucketId[css] := Clamps(BucketId(n, c.min), BucketId(n, c.max));
        css := css + 1;
      }
    }
    Skip(before, eff[..], css, |req|);
    forall i | 0 <= i < |req| ensures eff[i] == Effective(p, req, i) {
      ConsistentIsEffective(p, req, eff[..], i);
    }
    forall i | 0 <= i < |req| ensures MostRestrictive(p, req, i, eff[i]) {
      EffectiveIsMostRestrictive(p, req, i, eff[i]);
    }
    ChangesAreCalls(before, eff[..], |req|);
  }

  lemma Skip(a: seq<Clamps>, b: seq<Clamps>, m: nat, n: nat)
    requires m <= n <= |a| == |b| && a[m..] == b[m..]
    ensures Changes(a, b, n) == Changes(a, b, m) && a[n..] == b[n..]
  {
    forall i | m <= i < n ensures a[i] == b[i] {
      assert a[m..][i - m] == b[m..][i - m];
    }
    assert a[n..] == a[m..][n - m..];
    assert b[n..] == b[m..][n - m..];
    NoChanges(a, b, m, n);
  }

  // ----- writing a request -----

  const UCLAMP_PERCENT_SCALE := 10000
  const ERANGE := 34

  type Errno = e: nat | e > 0 witness 22

  /** What was written to the group: the word "max", a percentage in hundredths, or text that is no number. */
  datatype Text = MaxWord | Number(percent: int) | NoNumber(errno: Errno)

  datatype Request = Request(percent: nat, util: nat) | Refused(ret: int)

  /** `capacity_from_percent`; a negative percentage is a huge unsigned one. */
  function CapacityFromPercent(text: Text): Request {
    match text
    case MaxWord => Request(UCLAMP_PERCENT_SCALE, SCHED_CAPACITY_SCALE)
    case NoNumber(errno) => Refused(-(errno as int))
    case Number(percent) =>
      if percent < 0 || percent > UCLAMP_PERCENT_SCALE then Refused(-ERANGE)
      else Request(percent, (percent * SCHED_CAPACITY_SCALE + UCLAMP_PERCENT_SCALE / 2) / UCLAMP_PERCENT_SCALE)
  }

  /** A request is the capacity closest to its percentage, grows with it, and never exceeds the scale. */
  lemma CapacityIsClosest(text: Text, text': Text)
    ensures var c := CapacityFromPercent(text);
      c.Request? ==>
        && c.util <= SCHED_CAPACITY_SCALE
        && -5000 <= c.util * UCLAMP_PERCENT_SCALE - c.percent * SCHED_CAPACITY_SCALE <= 5000
        && forall u: int :: Apart(c.util, c.percent) <= Apart(u, c.percent)
    ensures var c, c' := CapacityFromPercent(text), CapacityFromPercent(text');
      c.Request? && c'.Request? && c.percent <= c'.percent ==> c.util <= c'.util
  {
  }

  /** What is accepted and what is noted: "max" is the whole scale, and a percentage is one from 0 to 100. */
  lemma RequestOfText(text: Text)
    ensures var r := CapacityFromPercent(text);
      match text
      case MaxWord => r == Request(10000, 1024)
      case NoNumber(errno) => r == Refused(-(errno as int))
      case Number(percent) =>
        if 0 <= percent <= 10000
        then r.Request? && r.percent == percent && -5000 <= r.util * 10000 - percent * 1024 <= 5000
        else r == Refused(-34)
  {
  }

  /** How far capacity `util` is from a percentage, in common units. */
  function Apart(util: int, percent: int): int {
    var d := util * UCLAMP_PERCENT_SCALE - percent * SCHED_CAPACITY_SCALE;
    if d < 0 then -d else d
  }

  function WithClamp(c: Clamps, id: ClampId, value: nat): Clamps {
    if id.UclampMin? then c.(min := value) else c.(max := value)
  }

  /** What writing the text returns, and what percentage and capacity the group has afterwards if it is accepted. */
  predicate Noted(text: Text, nbytes: nat, ret: int, percent: nat, util: nat) {
    match text
    case MaxWord => ret == nbytes && percent == 10000 && util == 1024
    case NoNumber(errno) => ret == -(errno as int)
    case Number(q) =>
      if 0 <= q <= 10000 then ret == nbytes && percent == q && -5000 <= util * 10000 - q * 1024 <= 5000 else ret == -34
  }

  lemma SameClamps(a: seq<Clamps>)
    ensures Changes(a, a, |a|) == []
  {
    NoChanges(a, a, 0, |a|);
  }

  lemma TextIsNoted(text: Text, nbytes: nat)
    ensures match CapacityFromPercent(text)
            case Request(percent, util) => Noted(text, nbytes, nbytes, percent, util)
            case Refused(error) => error < 0 && forall percent, util :: Noted(text, nbytes, error, percent, util)
  {
    RequestOfText(text);
  }

  /**
    `cpu_uclamp_write`: bad text changes nothing; otherwise clamps are in use from then on, the
    request and the percentage are noted, and all groups hold their effective clamps before and after.
   */
  method CpuUclampWrite(p: Preorder, n: Buckets, req: array<Clamps>, eff: array<Clamps>, bucketId: array<Clamps>, pct: array<Clamps>,
                        tg: nat, id: ClampId, text: Text, nbytes: nat, used: bool)
    returns (ret: int, nowUsed: bool, refreshed: seq<Refresh>)
    requires Hierarchy(p) && req.Length == eff.Length == pct.Length == |p.parent| && tg < req.Length
    requires req != eff && eff != bucketId && bucketId != req && pct !in {req, eff, bucketId}
    requires BucketsRight(n, eff[..], bucketId[..])
    requires forall i | 0 <= i < req.Length :: eff[i] == Effective(p, req[..], i)
    modifies req, eff, bucketId, pct
    ensures forall i | 0 <= i < req.Length :: eff[i] == Effective(p, req[..], i)
    ensures forall i | 0 <= i < req.Length :: MostRestrictive(p, req[..], i, eff[i])
    ensures BucketsRight(n, eff[..], bucketId[..])
    ensures refreshed == Changes(old(eff[..]), eff[..], req.Length)
    ensures OneCallEach(old(eff[..]), eff[..], req.Length, refreshed)
    ensures match id
            case UclampMin => Noted(text, nbytes, ret, pct[tg].min, req[tg].min) && req[tg].max == old(req[tg].max)
            case UclampMax => Noted(text, nbytes, ret, pct[tg].max, req[tg].max) && req[tg].min == old(req[tg].min)
    ensures match CapacityFromPercent(text)
            case Request(percent, util) =>
              && ret == nbytes && nowUsed
              && req[..] == old(req[..])[tg := WithClamp(old(req[tg]), id, util)]
              && pct[..] == old(pct[..])[tg := WithClamp(old(pct[tg]), id, percent)]
            case Refused(error) =>
              && ret == error < 0 && nowUsed == used
              && req[..] == old(req[..]) && eff[..] == old(eff[..]) && bucketId[..] == old(bucketId[..]) && pct[..] == old(pct[..])
  {
    hide MostRestrictive, OneCallEach, BucketsRight, Changes;
    var request := CapacityFromPercent(text);
    TextIsNoted(text, nbytes);
    hide CapacityFromPercent, Noted;
    if request.Refused? {
      SameClamps(eff[..]);
      ChangesAreCalls(eff[..], eff[..], req.Length);
      forall i | 0 <= i < req.Length ensures MostRestrictive(p, req[..], i, eff[i]) {
        EffectiveIsMostRestrictive(p, req[..], i, eff[i]);
      }
      return request.ret, used, [];
    }
    nowUsed := true;
    forall i | 0 <= i < req.Length ensures Consistent(p, req[..], eff[..], i) {
    }
    ghost var before := req[..];
    if id.UclampMin? {
      if req[tg].min != request.util {
        req[tg] := req[tg].(min := request.util);
      }
      pct[tg] := pct[tg].(min := request.percent);
    } else {
      if req[tg].max != request.util {
        req[tg] := req[tg].(max := request.util);
      }
      pct[tg] := pct[tg].(max := request.percent);
    }
    forall j | 0 <= j < req.Length && j != tg ensures Consistent(p, req[..], eff[..], j) {
      assert Consistent(p, before, eff[..], j);
    }
    hide Consistent, Effective;
    refreshed := CpuUtilUpdateEff(p, n, req[..], eff, bucketId, tg);
    ret := nbytes;
  }
}
