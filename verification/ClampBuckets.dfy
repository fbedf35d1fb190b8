/**
  The index of clamp values on a run queue: buckets count the runnable tasks by clamp value, and
  the run queue's clamp is meant to be the value of the highest bucket with tasks in it.
 */
module ClampBuckets {
  import opened Uclamp

  datatype Bucket = Bucket(tasks: nat, value: nat)

  /** One clamp of a run queue. */
  datatype ClampRq = ClampRq(value: nat, buckets: seq<Bucket>)

  function None(id: ClampId): nat {
    if id.UclampMin? then 0 else SCHED_CAPACITY_SCALE
  }

  /** The highest bucket below `i` with tasks in it; -1 when there is none. */
  function Top(buckets: seq<Bucket>, i: nat): (b: int)
    requires i <= |buckets|
    ensures -1 <= b < i
    ensures b >= 0 ==> buckets[b].tasks > 0
    ensures forall j | b < j < i :: buckets[j].tasks == 0
  {
    if i == 0 then -1 else if buckets[i - 1].tasks > 0 then i - 1 else Top(buckets, i - 1)
  }

  /** A task with clamp value `v` becomes runnable. */
  function IncId(n: Buckets, cr: ClampRq, idle: bool, v: nat): ClampRq
    requires |cr.buckets| == n
  {
    var b := BucketId(n, v);
    var bucket := cr.buckets[b];
    var held := if idle then v else cr.value;
    ClampRq(if v > held then v else held,
            cr.buckets[b := Bucket(bucket.tasks + 1, if bucket.tasks == 0 || v > bucket.value then v else bucket.value)])
  }

  /** A task with clamp value `v` stops being runnable; the flag says whether the run queue goes idle. */
  function DecId(n: Buckets, cr: ClampRq, id: ClampId, v: nat): (r: (ClampRq, bool))
    requires |cr.buckets| == n
  {
    var b := BucketId(n, v);
    var bucket := cr.buckets[b];
    var left := if bucket.tasks > 0 then bucket.tasks - 1 else 0;
    var buckets := cr.buckets[b := bucket.(tasks := left)];
    if left > 0 || bucket.value < cr.value then (ClampRq(cr.value, buckets), false)
    else
      var top := Top(buckets, n);
      if top >= 0 then (ClampRq(buckets[top].value, buckets), false)
      else (ClampRq(if id.UclampMax? then v else 0, buckets), id.UclampMax?)
  }

  /** What counting a task with clamp `v` does to one clamp of the run queue. */
  ghost predicate Counted(n: Buckets, cr: ClampRq, cr': ClampRq, idle: bool, v: nat) {
    var b := BucketId(n, v);
    && |cr.buckets| == |cr'.buckets| == n
    && cr'.buckets[b].tasks == cr.buckets[b].tasks + 1
    && cr'.buckets[b].value == (if cr.buckets[b].tasks > 0 && cr.buckets[b].value >= v then cr.buckets[b].value else v)
    && (forall c | 0 <= c < n && c != b :: cr'.buckets[c] == cr.buckets[c])
    && cr'.value == if !idle && cr.value >= v then cr.value else v
  }

  ghost predicate NoTasks(buckets: seq<Bucket>) {
    forall b | 0 <= b < |buckets| :: buckets[b].tasks == 0
  }

  /**
    What releasing one does: unless its bucket still has tasks or is below the run queue's value, that
    becomes the value of the highest bucket with tasks; without any, the run queue keeps the released
    UCLAMP_MAX and goes idle, and drops UCLAMP_MIN to zero.
   */
  ghost predicate Released(n: Buckets, cr: ClampRq, cr': ClampRq, id: ClampId, v: nat, goesIdle: bool) {
    var b := BucketId(n, v);
    && |cr.buckets| == |cr'.buckets| == n
    && cr'.buckets[b].value == cr.buckets[b].value
    && (cr.buckets[b].tasks > 0 ==> cr'.buckets[b].tasks == cr.buckets[b].tasks - 1)
    && (forall c | 0 <= c < n && c != b :: cr'.buckets[c] == cr.buckets[c])
    && var kept := cr'.buckets[b].tasks > 0 || cr.buckets[b].value < cr.value;
       && (kept ==> cr'.value == cr.value)
       && (!kept && !NoTasks(cr'.buckets) ==>
             exists top :: 0 <= top < n && cr'.buckets[top].tasks > 0 && cr'.value == cr'.buckets[top].value
                           && forall c | top < c < n :: cr'.buckets[c].tasks == 0)
       && (!kept && NoTasks(cr'.buckets) ==> cr'.value == if id.UclampMax? then v else 0)
       && (goesIdle ==> !kept && NoTasks(cr'.buckets) && id.UclampMax?)
  }

  /** Released with value `was` and counted again with `v`, while the idle flag goes from `idle` to `idle'`. */
  ghost predicate Recounted(n: Buckets, cr: ClampRq, cr': ClampRq, id: ClampId, was: nat, v: nat, idle: bool, idle': bool) {
    && (idle ==> idle')
    && exists mid :: Released(n, cr, mid, id, was, !idle && idle') && Counted(n, mid, cr', idle', v)
  }

  lemma RecountedBy(n: Buckets, cr: ClampRq, mid: ClampRq, cr': ClampRq, id: ClampId, was: nat, v: nat, idle: bool, idle': bool)
    requires (idle ==> idle') && Released(n, cr, mid, id, was, !idle && idle') && Counted(n, mid, cr', idle', v)
    ensures Recounted(n, cr, cr', id, was, v, idle, idle')
  {
  }

  lemma DecReleases(n: Buckets, cr: ClampRq, id: ClampId, v: nat)
    requires |cr.buckets| == n
    ensures var (cr', idle) := DecId(n, cr, id, v);
      Released(n, cr, cr', id, v, false) && Released(n, cr, cr', id, v, idle)
  {
    var cr' := DecId(n, cr, id, v).0;
    var top := Top(cr'.buckets, n);
  }

  // ----- the index against the tasks -----

  /** The active tasks in one bucket. */
  ghost function In(n: Buckets, vals: map<nat, nat>, b: nat): set<nat> {
    set t | t in vals && BucketId(n, vals[t]) == b
  }

  ghost predicate BucketRight(n: Buckets, cr: ClampRq, vals: map<nat, nat>, b: nat)
    requires b < |cr.buckets|
  {
    && cr.buckets[b].tasks == |In(n, vals, b)|
    && (cr.buckets[b].tasks > 0 ==>
          && BucketId(n, cr.buckets[b].value) == b
          && cr.buckets[b].value <= cr.value
          && forall t | t in In(n, vals, b) :: vals[t] <= cr.buckets[b].value)
  }

  /**
    Every bucket counts its active tasks; a non-empty bucket's value bounds them, stays in the
    bucket's range and is at most the run queue's value.
   */
  ghost predicate Indexed(n: Buckets, cr: ClampRq, vals: map<nat, nat>) {
    && |cr.buckets| == n
    && forall b | 0 <= b < n :: BucketRight(n, cr, vals, b)
  }

  /** The run queue's value is that of its highest non-empty bucket, if there is one. */
  ghost predicate Exact(cr: ClampRq) {
    var top := Top(cr.buckets, |cr.buckets|);
    top >= 0 ==> cr.value == cr.buckets[top].value
  }

  lemma InEmpty(n: Buckets, vals: map<nat, nat>, b: nat)
    requires vals == map[]
    ensures In(n, vals, b) == {}
  {
  }

  lemma InAdd(n: Buckets, vals: map<nat, nat>, t: nat, v: nat, b: nat)
    requires t !in vals
    ensures In(n, vals[t := v], b) == if BucketId(n, v) == b then In(n, vals, b) + {t} else In(n, vals, b)
  {
    var vals' := vals[t := v];
    forall x | x in In(n, vals, b) ensures x in In(n, vals', b) {
      assert vals'[x] == vals[x];
    }
    forall x | x in In(n, vals', b) && x != t ensures x in In(n, vals, b) {
      assert vals'[x] == vals[x];
    }
  }

  lemma InRemove(n: Buckets, vals: map<nat, nat>, t: nat, b: nat)
    requires t in vals
    ensures In(n, vals - {t}, b) == In(n, vals, b) - {t}
    ensures BucketId(n, vals[t]) == b <==> t in In(n, vals, b)
  {
    var vals' := vals - {t};
    forall x | x in In(n, vals, b) && x != t ensures x in In(n, vals', b) {
      assert vals'[x] == vals[x];
    }
    forall x | x in In(n, vals', b) ensures x in In(n, vals, b) {
      assert vals'[x] == vals[x];
    }
  }

  /** Among non-empty buckets the highest has the highest value. */
  lemma TopIsHighest(n: Buckets, cr: ClampRq, vals: map<nat, nat>, b: nat)
    requires Indexed(n, cr, vals) && b < n && cr.buckets[b].tasks > 0
    ensures var top := Top(cr.buckets, n);
      b <= top && cr.buckets[b].value <= cr.buckets[top].value
  {
    var top := Top(cr.buckets, n);
    assert BucketRight(n, cr, vals, b);
    assert BucketRight(n, cr, vals, top);
    BucketsAreRanges(n, cr.buckets[b].value, cr.buckets[top].value);
  }

  lemma NonEmpty(n: Buckets, cr: ClampRq, vals: map<nat, nat>)
    requires Indexed(n, cr, vals)
    ensures vals == map[] <==> Top(cr.buckets, n) < 0
  {
    if vals == map[] {
      forall b | 0 <= b < n ensures cr.buckets[b].tasks == 0 {
        assert BucketRight(n, cr, vals, b);
        InEmpty(n, vals, b);
      }
    } else {
      var t :| t in vals;
      var b := BucketId(n, vals[t]);
      assert BucketRight(n, cr, vals, b);
      assert t in In(n, vals, b);
    }
  }

  lemma IncIndexed(n: Buckets, cr: ClampRq, idle: bool, vals: map<nat, nat>, t: nat, v: nat)
    requires Indexed(n, cr, vals) && t !in vals && (idle ==> vals == map[])
    ensures Indexed(n, IncId(n, cr, idle, v), vals[t := v])
  {
    var cr', vals' := IncId(n, cr, idle, v), vals[t := v];
    forall b | 0 <= b < n ensures BucketRight(n, cr', vals', b) {
      assert BucketRight(n, cr, vals, b);
      InAdd(n, vals, t, v, b);
      if idle {
        InEmpty(n, vals, b);
      }
    }
  }

  lemma IncExact(n: Buckets, cr: ClampRq, idle: bool, vals: map<nat, nat>, t: nat, v: nat)
    requires Indexed(n, cr, vals) && t !in vals && (idle ==> vals == map[])
    requires Exact(cr) && (vals == map[] ==> idle || cr.value <= v)
    ensures Exact(IncId(n, cr, idle, v))
  {
    var cr' := IncId(n, cr, idle, v);
    IncIndexed(n, cr, idle, vals, t, v);
    NonEmpty(n, cr, vals);
    NonEmpty(n, cr', vals[t := v]);
    var b, top := BucketId(n, v), Top(cr'.buckets, n);
    TopIsHighest(n, cr', vals[t := v], b);
    assert BucketRight(n, cr', vals[t := v], b);
    assert BucketRight(n, cr', vals[t := v], top);
    var was := Top(cr.buckets, n);
    if was >= 0 {
      assert BucketRight(n, cr, vals, was);
      TopIsHighest(n, cr', vals[t := v], was);
      assert top == was || top == b;
    }
  }

  /** The two warnings of the dequeue path cannot fire. */
  lemma DecNeverWarns(n: Buckets, cr: ClampRq, vals: map<nat, nat>, t: nat)
    requires Indexed(n, cr, vals) && t in vals
    ensures var bucket := cr.buckets[BucketId(n, vals[t])]; bucket.tasks > 0 && bucket.value <= cr.value
  {
    var b := BucketId(n, vals[t]);
    assert BucketRight(n, cr, vals, b);
    assert t in In(n, vals, b);
  }

  /** Dropping one count, before the run queue's value is looked at. */
  lemma DropIndexed(n: Buckets, cr: ClampRq, vals: map<nat, nat>, t: nat)
    requires Indexed(n, cr, vals) && t in vals
    ensures var b := BucketId(n, vals[t]);
      cr.buckets[b].tasks > 0 &&
      Indexed(n, cr.(buckets := cr.buckets[b := cr.buckets[b].(tasks := cr.buckets[b].tasks - 1)]), vals - {t})
  {
    DecNeverWarns(n, cr, vals, t);
    var b0 := BucketId(n, vals[t]);
    var cr' := cr.(buckets := cr.buckets[b0 := cr.buckets[b0].(tasks := cr.buckets[b0].tasks - 1)]);
    forall b | 0 <= b < n ensures BucketRight(n, cr', vals - {t}, b) {
      assert BucketRight(n, cr, vals, b);
      InRemove(n, vals, t, b);
    }
  }

  lemma DecIndexed(n: Buckets, cr: ClampRq, id: ClampId, vals: map<nat, nat>, t: nat)
    requires Indexed(n, cr, vals) && t in vals
    ensures Indexed(n, DecId(n, cr, id, vals[t]).0, vals - {t})
    ensures DecId(n, cr, id, vals[t]).1 ==> id.UclampMax? && vals - {t} == map[]
  {
    DropIndexed(n, cr, vals, t);
    var b0, vals' := BucketId(n, vals[t]), vals - {t};
    var dropped := cr.(buckets := cr.buckets[b0 := cr.buckets[b0].(tasks := cr.buckets[b0].tasks - 1)]);
    NonEmpty(n, dropped, vals');
    var cr' := DecId(n, cr, id, vals[t]).0;
    assert cr'.buckets == dropped.buckets;
    forall b | 0 <= b < n ensures BucketRight(n, cr', vals', b) {
      assert BucketRight(n, dropped, vals', b);
      if dropped.buckets[b].tasks > 0 {
        TopIsHighest(n, dropped, vals', b);
      }
    }
  }

  lemma DecExact(n: Buckets, cr: ClampRq, id: ClampId, vals: map<nat, nat>, t: nat)
    requires Indexed(n, cr, vals) && t in vals && Exact(cr)
    ensures var (cr', idle') := DecId(n, cr, id, vals[t]);
      && Exact(cr')
      && (vals - {t} == map[] ==> idle' == id.UclampMax? && (id.UclampMin? ==> cr'.value == 0))
  {
    DecIndexed(n, cr, id, vals, t);
    DecNeverWarns(n, cr, vals, t);
    var b, cr' := BucketId(n, vals[t]), DecId(n, cr, id, vals[t]).0;
    NonEmpty(n, cr', vals - {t});
    TopIsHighest(n, cr, vals, b);
    var top := Top(cr.buckets, n);
    if cr'.buckets[b].tasks > 0 {
      SameTop(cr.buckets, cr'.buckets, n, top);
    } else if cr.buckets[b].value < cr.value {
      SameTop(cr.buckets, cr'.buckets, n, top);
    }
  }

  lemma SameTop(a: seq<Bucket>, b: seq<Bucket>, n: nat, top: nat)
    requires n == |a| == |b| && top < n && Top(a, n) == top && b[top].tasks > 0
    requires forall j | top < j < n :: a[j] == b[j]
    ensures Top(b, n) == top
  {
  }

  // ----- runs -----

  /** A run queue, whether clamps are in use, and the clamp values of its active tasks. */
  datatype RqState = RqState(min: ClampRq, max: ClampRq, idle: bool, used: bool, active: map<nat, Clamps>)

  datatype Op =
    | Enqueue(task: nat, clamps: Clamps, enabled: bool)
    | Dequeue(task: nat, enabled: bool)
    | SwitchOn

  ghost function MinVals(active: map<nat, Clamps>): map<nat, nat> {
    map t | t in active :: active[t].min
  }

  ghost function MaxVals(active: map<nat, Clamps>): map<nat, nat> {
    map t | t in active :: active[t].max
  }

  ghost function Next(n: Buckets, s: RqState, op: Op): RqState
    requires |s.min.buckets| == |s.max.buckets| == n
  {
    match op
    case Enqueue(t, c, enabled) =>
      if !s.used || !enabled then s
      else s.(min := IncId(n, s.min, s.idle, c.min), max := IncId(n, s.max, s.idle, c.max), idle := false, active := s.active[t := c])
    case Dequeue(t, enabled) =>
      if !s.used || !enabled || t !in s.active then s
      else
        var (min, _) := DecId(n, s.min, UclampMin, s.active[t].min);
        var (max, idle) := DecId(n, s.max, UclampMax, s.active[t].max);
        s.(min := min, max := max, idle := s.idle || idle, active := s.active - {t})
    case SwitchOn => s.(used := true)
  }

  /** One clamp of a counted task is released and counted again, with value `v`. */
  ghost function Refresh(n: Buckets, s: RqState, t: nat, id: ClampId, v: nat): RqState
    requires |s.min.buckets| == |s.max.buckets| == n
  {
    if t !in s.active then s
    else if id.UclampMin? then
      var (cr, idle) := DecId(n, s.min, id, s.active[t].min);
      s.(min := IncId(n, cr, s.idle || idle, v), idle := s.idle || idle, active := s.active[t := Clamps(v, s.active[t].max)])
    else
      var (cr, idle) := DecId(n, s.max, id, s.active[t].max);
      s.(max := IncId(n, cr, s.idle || idle, v), idle := s.idle || idle, active := s.active[t := Clamps(s.active[t].min, v)])
  }

  lemma RefreshedTo(n: Buckets, s: RqState, t: nat, id: ClampId, v: nat, min: ClampRq, max: ClampRq, idle: bool)
    requires |s.min.buckets| == |s.max.buckets| == n && t in s.active
    requires id.UclampMin? ==> max == s.max
    requires id.UclampMax? ==> min == s.min
    requires var (cr, cr', was) := if id.UclampMin? then (s.min, min, s.active[t].min) else (s.max, max, s.active[t].max);
      var (mid, gone) := DecId(n, cr, id, was);
      idle == (s.idle || gone) && |mid.buckets| == n && cr' == IncId(n, mid, idle, v)
    ensures var c := s.active[t];
      Refresh(n, s, t, id, v)
      == RqState(min, max, idle, s.used, s.active[t := if id.UclampMin? then Clamps(v, c.max) else Clamps(c.min, v)])
  {
    hide IncId;
  }

  /** A task is not enqueued twice, its class is the same at both ends, clamps are at most the scale. */
  ghost predicate Allowed(s: RqState, op: Op) {
    match op
    case Enqueue(t, c, _) => t !in s.active && c.max <= SCHED_CAPACITY_SCALE
    case Dequeue(t, enabled) => t in s.active ==> s.used && enabled
    case SwitchOn => true
  }

  /** The UCLAMP_MAX value is exact, and an empty run queue is flagged idle. */
  ghost predicate Tight(s: RqState) {
    Exact(s.max) && (s.active == map[] ==> s.idle)
  }

  /** The UCLAMP_MAX value still is the initial one, above every bucket. */
  ghost predicate Saturated(s: RqState) {
    && !s.idle
    && s.max.value == SCHED_CAPACITY_SCALE
    && forall b | 0 <= b < |s.max.buckets| && s.max.buckets[b].tasks > 0 :: s.max.buckets[b].value < SCHED_CAPACITY_SCALE
  }

  ghost predicate Inv(n: Buckets, s: RqState) {
    && Indexed(n, s.min, MinVals(s.active))
    && Indexed(n, s.max, MaxVals(s.active))
    && Exact(s.min)
    && (s.active == map[] ==> s.min.value == 0 || s.idle)
    && (s.idle ==> s.active == map[])
    && (Tight(s) || Saturated(s))
  }

  ghost predicate IsRun(n: Buckets, ops: seq<Op>, ss: seq<RqState>) {
    && |ss| == |ops| + 1
    && forall i | 0 <= i < |ops| ::
         |ss[i].min.buckets| == |ss[i].max.buckets| == n && Allowed(ss[i], ops[i]) && ss[i + 1] == Next(n, ss[i], ops[i])
  }

  /** An enqueue that really counts a task with the largest possible UCLAMP_MAX. */
  ghost predicate Full(s: RqState, op: Op) {
    op.Enqueue? && s.used && op.enabled && op.clamps.max == SCHED_CAPACITY_SCALE
  }

  lemma ValsAdd(active: map<nat, Clamps>, t: nat, c: Clamps)
    ensures MinVals(active[t := c]) == MinVals(active)[t := c.min]
    ensures MaxVals(active[t := c]) == MaxVals(active)[t := c.max]
    ensures MinVals(active) == map[] <==> active == map[]
    ensures MaxVals(active) == map[] <==> active == map[]
  {
    assert active != map[] ==> exists x :: x in active;
    assert forall x | x in active :: x in MinVals(active) && x in MaxVals(active);
  }

  lemma ValsRemove(active: map<nat, Clamps>, t: nat)
    ensures MinVals(active - {t}) == MinVals(active) - {t}
    ensures MaxVals(active - {t}) == MaxVals(active) - {t}
  {
  }

  lemma FullIsExact(n: Buckets, cr: ClampRq, vals: map<nat, nat>, t: nat)
    requires Indexed(n, cr, vals) && t !in vals && cr.value == SCHED_CAPACITY_SCALE
    requires forall b | 0 <= b < n && cr.buckets[b].tasks > 0 :: cr.buckets[b].value < SCHED_CAPACITY_SCALE
    ensures Exact(IncId(n, cr, false, SCHED_CAPACITY_SCALE))
  {
    var v := SCHED_CAPACITY_SCALE;
    var cr', vals' := IncId(n, cr, false, v), vals[t := v];
    IncIndexed(n, cr, false, vals, t, v);
    TopIsHighest(n, cr', vals', BucketId(n, v));
    assert BucketRight(n, cr', vals', Top(cr'.buckets, n));
  }

  lemma IncKeepsInv(n: Buckets, s: RqState, t: nat, c: Clamps)
    requires Inv(n, s) && t !in s.active && c.max <= SCHED_CAPACITY_SCALE && s.used
    ensures var s' := Next(n, s, Enqueue(t, c, true));
      && Inv(n, s')
      && (Tight(s) || c.max == SCHED_CAPACITY_SCALE ==> Tight(s'))
      && (Saturated(s) && c.max < SCHED_CAPACITY_SCALE ==> Saturated(s'))
  {
    ValsAdd(s.active, t, c);
    IncIndexed(n, s.min, s.idle, MinVals(s.active), t, c.min);
    IncIndexed(n, s.max, s.idle, MaxVals(s.active), t, c.max);
    IncExact(n, s.min, s.idle, MinVals(s.active), t, c.min);
    assert t in s.active[t := c];
    if Tight(s) {
      IncExact(n, s.max, s.idle, MaxVals(s.active), t, c.max);
    } else if c.max == SCHED_CAPACITY_SCALE {
      FullIsExact(n, s.max, MaxVals(s.active), t);
    }
  }

  lemma DecKeepsInv(n: Buckets, s: RqState, t: nat)
    requires Inv(n, s) && t in s.active && s.used
    ensures var s' := Next(n, s, Dequeue(t, true));
      Inv(n, s') && (Tight(s) ==> Tight(s')) && (Saturated(s) ==> Saturated(s'))
  {
    ValsRemove(s.active, t);
    ValsAdd(s.active - {t}, t, s.active[t]);
    DecIndexed(n, s.min, UclampMin, MinVals(s.active), t);
    DecIndexed(n, s.max, UclampMax, MaxVals(s.active), t);
    DecExact(n, s.min, UclampMin, MinVals(s.active), t);
    DecNeverWarns(n, s.max, MaxVals(s.active), t);
    if Tight(s) {
      DecExact(n, s.max, UclampMax, MaxVals(s.active), t);
    }
  }

  lemma NextKeepsInv(n: Buckets, s: RqState, op: Op)
    requires Inv(n, s) && Allowed(s, op)
    ensures var s' := Next(n, s, op);
      && Inv(n, s')
      && (Tight(s) || Full(s, op) ==> Tight(s'))
      && (Saturated(s) && !Full(s, op) ==> Saturated(s'))
  {
    match op
    case Enqueue(t, c, enabled) =>
      if s.used && enabled {
        IncKeepsInv(n, s, t, c);
      }
    case Dequeue(t, enabled) =>
      if s.used && enabled && t in s.active {
        DecKeepsInv(n, s, t);
      }
    case SwitchOn =>
  }

  /** The index is right after every run from a state where it is right. */
  lemma {:induction false} RunKeepsInv(n: Buckets, ops: seq<Op>, ss: seq<RqState>, i: nat)
    requires IsRun(n, ops, ss) && Inv(n, ss[0]) && i <= |ops|
    ensures Inv(n, ss[i])
    ensures Tight(ss[0]) || (exists j | 0 <= j < i :: Full(ss[j], ops[j])) ==> Tight(ss[i])
    ensures Saturated(ss[0]) && (forall j | 0 <= j < i :: !Full(ss[j], ops[j])) ==> Saturated(ss[i])
  {
    if i > 0 {
      RunKeepsInv(n, ops, ss, i - 1);
      NextKeepsInv(n, ss[i - 1], ops[i - 1]);
    }
  }

  ghost function Fresh(n: Buckets, value: nat): ClampRq {
    ClampRq(value, seq(n, _ => Bucket(0, 0)))
  }

  /** The state set up by `init_uclamp_rq`. */
  ghost function Init(n: Buckets): RqState {
    RqState(Fresh(n, None(UclampMin)), Fresh(n, None(UclampMax)), false, false, map[])
  }

  /** An empty run queue that has gone idle: the last clamps are still on show. */
  ghost predicate GoneIdle(n: Buckets, s: RqState) {
    && s.idle && s.active == map[]
    && |s.min.buckets| == |s.max.buckets| == n
    && forall b | 0 <= b < n :: s.min.buckets[b].tasks == s.max.buckets[b].tasks == 0
  }

  lemma StartsWell(n: Buckets, s: RqState)
    requires s == Init(n) || GoneIdle(n, s)
    ensures Inv(n, s)
    ensures GoneIdle(n, s) ==> Tight(s)
    ensures s == Init(n) ==> Saturated(s)
  {
    forall b | 0 <= b < n
      ensures BucketRight(n, s.min, MinVals(s.active), b) && BucketRight(n, s.max, MaxVals(s.active), b)
    {
      ValsAdd(s.active, 0, Clamps(0, 0));
      InEmpty(n, MinVals(s.active), b);
      InEmpty(n, MaxVals(s.active), b);
    }
    assert Top(s.min.buckets, n) == -1 && Top(s.max.buckets, n) == -1;
  }

  /** UCLAMP_MIN: in every run, while any task is active the value is that of the highest non-empty bucket. */
  lemma MinAlwaysExact(n: Buckets, ops: seq<Op>, ss: seq<RqState>, i: nat)
    requires IsRun(n, ops, ss) && (ss[0] == Init(n) || GoneIdle(n, ss[0])) && i <= |ops| && ss[i].active != map[]
    ensures var top := Top(ss[i].min.buckets, |ss[i].min.buckets|);
      top >= 0 && ss[i].min.value == ss[i].min.buckets[top].value
  {
    StartsWell(n, ss[0]);
    RunKeepsInv(n, ops, ss, i);
    ValsAdd(ss[i].active, 0, Clamps(0, 0));
    NonEmpty(n, ss[i].min, MinVals(ss[i].active));
  }

  /** UCLAMP_MAX: likewise in every run that starts on an idle run queue. */
  lemma MaxExactFromIdle(n: Buckets, ops: seq<Op>, ss: seq<RqState>, i: nat)
    requires IsRun(n, ops, ss) && GoneIdle(n, ss[0]) && i <= |ops| && ss[i].active != map[]
    ensures var top := Top(ss[i].max.buckets, |ss[i].max.buckets|);
      top >= 0 && ss[i].max.value == ss[i].max.buckets[top].value
  {
    StartsWell(n, ss[0]);
    RunKeepsInv(n, ops, ss, i);
    ValsAdd(ss[i].active, 0, Clamps(0, 0));
    NonEmpty(n, ss[i].max, MaxVals(ss[i].active));
  }

  /**
    From initialisation UCLAMP_MAX is exact if and only if a task with the largest clamp has been
    counted at some point: until then the initial value hides every smaller clamp.
   */
  lemma MaxExactFromInit(n: Buckets, ops: seq<Op>, ss: seq<RqState>, i: nat)
    requires IsRun(n, ops, ss) && ss[0] == Init(n) && i <= |ops| && ss[i].active != map[]
    ensures var top := Top(ss[i].max.buckets, |ss[i].max.buckets|);
      && top >= 0
      && (ss[i].max.value == ss[i].max.buckets[top].value <==> exists j | 0 <= j < i :: Full(ss[j], ops[j]))
  {
    StartsWell(n, ss[0]);
    RunKeepsInv(n, ops, ss, i);
    ValsAdd(ss[i].active, 0, Clamps(0, 0));
    NonEmpty(n, ss[i].max, MaxVals(ss[i].active));
  }

  lemma LastRelease(n: Buckets, s: RqState, t: nat)
    requires Inv(n, s) && s.used && s.active.Keys == {t}
    ensures var s' := Next(n, s, Dequeue(t, true));
      && s'.active == map[] && s'.min.value == 0
      && (Tight(s) ==> s'.idle && s'.max.value == s.active[t].max)
      && (Saturated(s) ==> !s'.idle && s'.max.value == SCHED_CAPACITY_SCALE)
  {
    LastVals(s.active, t);
    hide Indexed, MinVals, MaxVals, DecId, Tight, Saturated, Exact;
    LastExact(n, s.min, UclampMin, MinVals(s.active), t);
    if Tight(s) {
      TightIsExact(s);
      LastExact(n, s.max, UclampMax, MaxVals(s.active), t);
    }
    if Saturated(s) {
      LastSaturated(n, s, MaxVals(s.active), t);
    }
  }

  lemma TightIsExact(s: RqState)
    requires Tight(s)
    ensures Exact(s.max)
  {
  }

  lemma LastVals(active: map<nat, Clamps>, t: nat)
    requires active.Keys == {t}
    ensures active - {t} == map[]
    ensures t in MinVals(active) && MinVals(active)[t] == active[t].min && MinVals(active) - {t} == map[]
    ensures t in MaxVals(active) && MaxVals(active)[t] == active[t].max && MaxVals(active) - {t} == map[]
  {
  }

  lemma LastExact(n: Buckets, cr: ClampRq, id: ClampId, vals: map<nat, nat>, t: nat)
    requires Indexed(n, cr, vals) && t in vals && Exact(cr) && vals - {t} == map[]
    ensures var (cr', idle) := DecId(n, cr, id, vals[t]);
      cr'.value == (if id.UclampMax? then vals[t] else 0) && idle == id.UclampMax?
  {
    hide Indexed, Exact;
    DecExact(n, cr, id, vals, t);
  }

  lemma LastSaturated(n: Buckets, s: RqState, vals: map<nat, nat>, t: nat)
    requires Saturated(s) && Indexed(n, s.max, vals) && t in vals
    ensures DecId(n, s.max, UclampMax, vals[t]).0.value == SCHED_CAPACITY_SCALE && !DecId(n, s.max, UclampMax, vals[t]).1
  {
    DecNeverWarns(n, s.max, vals, t);
    hide Indexed;
  }

  /**
    The last task to leave takes UCLAMP_MIN down to zero. Its UCLAMP_MAX stays on show and the run queue is
    idle, unless that has been hidden by the initial value all along, which then stays, as if not idle.
   */
  lemma LastTaskStaysOnShow(n: Buckets, ops: seq<Op>, ss: seq<RqState>, i: nat, t: nat)
    requires IsRun(n, ops, ss) && (ss[0] == Init(n) || GoneIdle(n, ss[0])) && i < |ops|
    requires ops[i] == Dequeue(t, true) && ss[i].used && ss[i].active.Keys == {t}
    ensures ss[i + 1].active == map[] && ss[i + 1].min.value == 0
    ensures if ss[0] == Init(n) && forall j | 0 <= j < i :: !Full(ss[j], ops[j])
            then !ss[i + 1].idle && ss[i + 1].max.value == SCHED_CAPACITY_SCALE
            else ss[i + 1].idle && ss[i + 1].max.value == ss[i].active[t].max
  {
    StartsWell(n, ss[0]);
    RunKeepsInv(n, ops, ss, i);
    hide Inv, Next, Tight, Saturated, Init, GoneIdle;
    LastRelease(n, ss[i], t);
  }

  /** The first task on an idle run queue brings both values to its own. */
  lemma FirstTaskResets(n: Buckets, ops: seq<Op>, ss: seq<RqState>, i: nat)
    requires IsRun(n, ops, ss) && i < |ops| && ops[i].Enqueue? && ss[i].used && ops[i].enabled && ss[i].idle
    ensures ss[i + 1].min.value == ops[i].clamps.min && ss[i + 1].max.value == ops[i].clamps.max && !ss[i + 1].idle
  {
  }

  // ----- the run queue -----

  /** A task's clamp as last counted. */
  datatype UclampSe = UclampSe(value: nat, bucketId: nat, active: bool)

  type TaskClamps = map<nat, UclampSe>

  function Put(se: map<ClampId, TaskClamps>, id: ClampId, t: nat, x: UclampSe): map<ClampId, TaskClamps>
    requires id in se
  {
    var clamps: TaskClamps := se[id][t := x];
    se[id := clamps]
  }

  ghost predicate ActiveIn(se: map<ClampId, TaskClamps>, id: ClampId, t: nat) {
    id in se && t in se[id] && se[id][t].active
  }

  /** Both clamps exist, remember the bucket that they were counted in, and are active on the same tasks. */
  ghost predicate TasksValid(n: Buckets, se: map<ClampId, TaskClamps>) {
    && UclampMin in se && UclampMax in se
    && (forall t | t in se[UclampMin] :: se[UclampMin][t].bucketId == BucketId(n, se[UclampMin][t].value))
    && (forall t | t in se[UclampMax] :: se[UclampMax][t].bucketId == BucketId(n, se[UclampMax][t].value))
    && (forall t :: ActiveIn(se, UclampMin, t) <==> ActiveIn(se, UclampMax, t))
  }

  ghost function ActiveTasks(n: Buckets, se: map<ClampId, TaskClamps>): map<nat, Clamps>
    requires TasksValid(n, se)
  {
    map t | t in se[UclampMin] && ActiveIn(se, UclampMin, t) :: Clamps(se[UclampMin][t].value, se[UclampMax][t].value)
  }

  lemma PutBoth(n: Buckets, se: map<ClampId, TaskClamps>, t: nat, min: UclampSe, max: UclampSe)
    returns (se': map<ClampId, TaskClamps>)
    requires TasksValid(n, se) && min.active == max.active
    requires min.bucketId == BucketId(n, min.value) && max.bucketId == BucketId(n, max.value)
    ensures se' == Put(Put(se, UclampMin, t, min), UclampMax, t, max) && TasksValid(n, se')
    ensures ActiveTasks(n, se') == if min.active then ActiveTasks(n, se)[t := Clamps(min.value, max.value)] else ActiveTasks(n, se) - {t}
  {
    se' := Put(Put(se, UclampMin, t, min), UclampMax, t, max);
    forall x, id | id in {UclampMin, UclampMax} ensures ActiveIn(se', id, x) <==> if x == t then min.active else ActiveIn(se, id, x) {
    }
  }

  /** A task that stays active gets a new value for one clamp. */
  lemma PutOne(n: Buckets, se: map<ClampId, TaskClamps>, id: ClampId, t: nat, v: nat)
    requires TasksValid(n, se) && ActiveIn(se, id, t)
    ensures t in ActiveTasks(n, se) && id in se && t in se[id]
    ensures se[id][t].value == if id.UclampMin? then ActiveTasks(n, se)[t].min else ActiveTasks(n, se)[t].max
    ensures var se' := Put(se, id, t, UclampSe(v, BucketId(n, v), true)); var c := ActiveTasks(n, se)[t];
      && TasksValid(n, se')
      && ActiveTasks(n, se') == ActiveTasks(n, se)[t := if id.UclampMin? then Clamps(v, c.max) else Clamps(c.min, v)]
  {
    var se' := Put(se, id, t, UclampSe(v, BucketId(n, v), true));
    assert ActiveIn(se, UclampMin, t) <==> ActiveIn(se, UclampMax, t);
    forall x, other | other in {UclampMin, UclampMax} ensures ActiveIn(se', other, x) <==> ActiveIn(se, other, x) {
    }
  }

  lemma NotActive(n: Buckets, se: map<ClampId, TaskClamps>, id: ClampId, t: nat)
    requires TasksValid(n, se) && !ActiveIn(se, id, t)
    ensures t !in ActiveTasks(n, se)
  {
    assert ActiveIn(se, UclampMin, t) <==> ActiveIn(se, UclampMax, t);
  }

  lemma PutTwice(se: map<ClampId, TaskClamps>, id: ClampId, t: nat, x: UclampSe, y: UclampSe)
    requires id in se
    ensures Put(Put(se, id, t, x), id, t, y) == Put(se, id, t, y)
  {
    assert se[id][t := x][t := y] == se[id][t := y];
  }

  class RunQueue {
    const n: Buckets
    var uclamp: map<ClampId, ClampRq>
    var idleFlag: bool
    var used: bool
    var se: map<ClampId, TaskClamps>

    ghost predicate Shape()
      reads this
    {
      && UclampMin in uclamp && UclampMax in uclamp && UclampMin in se && UclampMax in se
      && |uclamp[UclampMin].buckets| == |uclamp[UclampMax].buckets| == n
    }

    ghost predicate Valid()
      reads this
    {
      Shape() && TasksValid(n, se)
    }

    ghost function State(): RqState
      reads this
      requires Valid()
    {
      RqState(uclamp[UclampMin], uclamp[UclampMax], idleFlag, used, ActiveTasks(n, se))
    }

    constructor (n: Buckets)
      ensures Valid() && this.n == n && State() == Init(n)
      ensures uclamp[UclampMin].value == 0 && uclamp[UclampMax].value == 1024 && !idleFlag && !used
      ensures forall b | 0 <= b < n :: uclamp[UclampMin].buckets[b] == uclamp[UclampMax].buckets[b] == Bucket(0, 0)
    {
      this.n := n;
      var buckets := seq(n, _ => Bucket(0, 0));
      uclamp := map[UclampMin := ClampRq(None(UclampMin), buckets), UclampMax := ClampRq(None(UclampMax), buckets)];
      idleFlag, used := false, false;
      se := map[UclampMin := map[], UclampMax := map[]];
    }

    /** The value of the highest non-empty bucket; without one, the idle value. */
    method UclampRqMaxValue(id: ClampId, clampValue: nat) returns (value: nat)
      requires Shape()
      modifies this`idleFlag
      ensures var top := Top(uclamp[id].buckets, n);
        && value == (if top >= 0 then uclamp[id].buckets[top].value else if id.UclampMax? then clampValue else 0)
        && idleFlag == (old(idleFlag) || (top < 0 && id.UclampMax?))
    {
      var b: int := n - 1;
      while b >= 0
        invariant -1 <= b < n
        invariant idleFlag == old(idleFlag)
        invariant Top(uclamp[id].buckets, n) == Top(uclamp[id].buckets, b + 1)
      {
        if uclamp[id].buckets[b].tasks != 0 {
          return uclamp[id].buckets[b].value;
        }
        b := b - 1;
      }
      if id.UclampMax? {
        idleFlag := true;
        return clampValue;
      }
      return None(UclampMin);
    }

    method UclampRqIncId(id: ClampId, t: nat, eff: nat)
      requires Shape()
      modifies this`uclamp, this`se
      ensures Shape()
      ensures uclamp == old(uclamp)[id := IncId(n, old(uclamp[id]), idleFlag, eff)]
      ensures se == Put(old(se), id, t, UclampSe(eff, BucketId(n, eff), true))
      ensures Counted(n, old(uclamp[id]), uclamp[id], idleFlag, eff)
    {
      var b := BucketId(n, eff);
      se := Put(se, id, t, UclampSe(eff, b, true));
      var cr := uclamp[id];
      var bucket := cr.buckets[b];
      bucket := bucket.(tasks := bucket.tasks + 1);
      if idleFlag {
        cr := cr.(value := eff);
      }
      if bucket.tasks == 1 || eff > bucket.value {
        bucket := bucket.(value := eff);
      }
      if eff > cr.value {
        cr := cr.(value := eff);
      }
      uclamp := uclamp[id := cr.(buckets := cr.buckets[b := bucket])];
    }

    method UclampRqDecId(id: ClampId, t: nat)
      requires Shape()
      requires t in se[id] ==> se[id][t].bucketId == BucketId(n, se[id][t].value)
      modifies this`uclamp, this`se, this`idleFlag
      ensures Shape()
      ensures !old(ActiveIn(se, id, t)) ==> uclamp == old(uclamp) && se == old(se) && idleFlag == old(idleFlag)
      ensures old(ActiveIn(se, id, t)) ==>
        var v := old(se[id][t].value);
        && uclamp == old(uclamp)[id := DecId(n, old(uclamp[id]), id, v).0]
        && idleFlag == (old(idleFlag) || DecId(n, old(uclamp[id]), id, v).1)
        && se == Put(old(se), id, t, old(se[id][t]).(active := false))
      ensures old(ActiveIn(se, id, t)) ==>
        Released(n, old(uclamp[id]), uclamp[id], id, old(se[id][t].value), !old(idleFlag) && idleFlag)
    {
      hide Released, NoTasks, BucketId, Delta, Top;
      if t !in se[id] || !se[id][t].active {
        return;
      }
      var v, b := se[id][t].value, se[id][t].bucketId;
      DecReleases(n, uclamp[id], id, v);
      var bucket := uclamp[id].buckets[b];
      if bucket.tasks != 0 {
        bucket := bucket.(tasks := bucket.tasks - 1);
      }
      uclamp := uclamp[id := uclamp[id].(buckets := uclamp[id].buckets[b := bucket])];
      se := Put(se, id, t, se[id][t].(active := false));
      if bucket.tasks != 0 {
        return;
      }
      if bucket.value >= uclamp[id].value {
        var clamp := UclampRqMaxValue(id, v);
        uclamp := uclamp[id := uclamp[id].(value := clamp)];
      }
    }

    method UclampRqInc(t: nat, eff: Clamps, enabled: bool)
      requires Valid()
      modifies this`uclamp, this`se, this`idleFlag
      ensures Valid() && State() == Next(n, old(State()), Enqueue(t, eff, enabled))
      ensures if used && enabled
              then
                && Counted(n, old(uclamp[UclampMin]), uclamp[UclampMin], old(idleFlag), eff.min)
                && Counted(n, old(uclamp[UclampMax]), uclamp[UclampMax], old(idleFlag), eff.max)
                && !idleFlag
                && State().active == old(State().active)[t := eff]
              else uclamp == old(uclamp) && se == old(se) && idleFlag == old(idleFlag)
    {
      if !used || !enabled {
        return;
      }
      ghost var counted := PutBoth(n, se, t, UclampSe(eff.min, BucketId(n, eff.min), true), UclampSe(eff.max, BucketId(n, eff.max), true));
      UclampRqIncId(UclampMin, t, eff.min);
      UclampRqIncId(UclampMax, t, eff.max);
      if idleFlag {
        idleFlag := false;
      }
    }

    method UclampRqDec(t: nat, enabled: bool)
      requires Valid()
      modifies this`uclamp, this`se, this`idleFlag
      ensures Valid() && State() == Next(n, old(State()), Dequeue(t, enabled))
      ensures if used && enabled && t in old(State().active)
              then
                && Released(n, old(uclamp[UclampMin]), uclamp[UclampMin], UclampMin, old(State().active[t].min), false)
                && Released(n, old(uclamp[UclampMax]), uclamp[UclampMax], UclampMax, old(State().active[t].max), !old(idleFlag) && idleFlag)
                && State().active == old(State().active) - {t}
              else uclamp == old(uclamp) && se == old(se) && idleFlag == old(idleFlag)
    {
      if !used || !enabled {
        return;
      }
      assert ActiveIn(se, UclampMin, t) <==> ActiveIn(se, UclampMax, t);
      if ActiveIn(se, UclampMin, t) {
        ghost var released := PutBoth(n, se, t, se[UclampMin][t].(active := false), se[UclampMax][t].(active := false));
      }
      UclampRqDecId(UclampMin, t);
      UclampRqDecId(UclampMax, t);
    }

    /** `uclamp_update_active`: a clamp that is counted is released and counted again with the value now in effect. */
    method UclampUpdateActive(t: nat, id: ClampId, eff: nat)
      requires Valid()
      modifies this`uclamp, this`se, this`idleFlag
      ensures Valid() && State() == Refresh(n, old(State()), t, id, eff)
      ensures if t in old(State().active)
              then
                var was := old(State().active[t]);
                && State().active == old(State().active)[t := if id.UclampMin? then Clamps(eff, was.max) else Clamps(was.min, eff)]
                && Recounted(n, old(uclamp[id]), uclamp[id], id, if id.UclampMin? then was.min else was.max, eff, old(idleFlag), idleFlag)
              else State() == old(State())
      ensures forall other | other in uclamp && other != id :: other in old(uclamp) && uclamp[other] == old(uclamp[other])
    {
      if t !in se[id] || !se[id][t].active {
        NotActive(n, se, id, t);
        return;
      }
      PutOne(n, se, id, t, eff);
      ghost var s := State();
      assert se[id][t].bucketId == BucketId(n, se[id][t].value);
      hide DecId, IncId, Recounted, TasksValid, ActiveTasks, BucketId, Delta, Put, Refresh;
      Recount(t, id, eff);
      RefreshedTo(n, s, t, id, eff, uclamp[UclampMin], uclamp[UclampMax], idleFlag);
    }

    method Recount(t: nat, id: ClampId, eff: nat)
      requires Shape() && ActiveIn(se, id, t) && se[id][t].bucketId == BucketId(n, se[id][t].value)
      modifies this`uclamp, this`se, this`idleFlag
      ensures Shape() && |DecId(n, old(uclamp[id]), id, old(se[id][t].value)).0.buckets| == n
      ensures var (mid, gone) := DecId(n, old(uclamp[id]), id, old(se[id][t].value));
        && uclamp == old(uclamp)[id := IncId(n, mid, idleFlag, eff)] && idleFlag == (old(idleFlag) || gone)
      ensures Recounted(n, old(uclamp[id]), uclamp[id], id, old(se[id][t].value), eff, old(idleFlag), idleFlag)
      ensures se == Put(old(se), id, t, UclampSe(eff, BucketId(n, eff), true))
    {
      PutTwice(se, id, t, se[id][t].(active := false), UclampSe(eff, BucketId(n, eff), true));
      ghost var was, v, flag := uclamp[id], se[id][t].value, idleFlag;
      hide DecId, IncId, Counted, Released, Recounted, NoTasks, BucketId, Delta, Put;
      UclampRqDecId(id, t);
      ghost var mid := uclamp[id];
      UclampRqIncId(id, t, eff);
      RecountedBy(n, was, mid, uclamp[id], id, v, eff, flag, idleFlag);
      assert old(uclamp)[id := mid][id := uclamp[id]] == old(uclamp)[id := uclamp[id]];
    }

    /** Some knob is written for the first time. */
    method SchedUclampUsed()
      requires Valid()
      modifies this`used
      ensures Valid() && State() == Next(n, old(State()), SwitchOn)
      ensures used
    {
      used := true;
    }
  }
}
