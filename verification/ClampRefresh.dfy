/**
  The index of clamp values when the clamps of runnable tasks are refreshed in place. A refresh of
  the only task can leave the run queue flagged idle although the task is still there; the next task
  to be enqueued then takes over values that are not its own to set.
 */
module ClampRefresh {
  import opened Uclamp
  import opened ClampBuckets

  datatype Step =
    | Plain(op: Op)
    | Update(task: nat, id: ClampId, value: nat)

  ghost function After(n: Buckets, s: RqState, step: Step): RqState
    requires |s.min.buckets| == |s.max.buckets| == n
  {
    match step
    case Plain(op) => Next(n, s, op)
    case Update(t, id, v) => Refresh(n, s, t, id, v)
  }

  ghost predicate May(s: RqState, step: Step) {
    match step
    case Plain(op) => Allowed(s, op)
    case Update(_, _, v) => v <= SCHED_CAPACITY_SCALE
  }

  ghost predicate IsRun(n: Buckets, steps: seq<Step>, ss: seq<RqState>) {
    && |ss| == |steps| + 1
    && forall i | 0 <= i < |steps| ::
         |ss[i].min.buckets| == |ss[i].max.buckets| == n && May(ss[i], steps[i]) && ss[i + 1] == After(n, ss[i], steps[i])
  }

  /** Flagged idle with a task on it. */
  ghost predicate Stale(s: RqState) {
    s.idle && s.active != map[]
  }

  ghost predicate AtMostOne(active: map<nat, Clamps>) {
    forall t, u | t in active && u in active :: t == u
  }

  /** The index is right, whatever the idle flag says about a single task. */
  ghost predicate Right(n: Buckets, s: RqState) {
    && Inv(n, s.(idle := s.idle && s.active == map[]))
    && (Stale(s) ==> AtMostOne(s.active) && Tight(s))
  }

  // ----- one refresh -----

  /** Releasing one task and counting it again leaves the index of that clamp right. */
  lemma OneRefreshed(n: Buckets, cr: ClampRq, id: ClampId, vals: map<nat, nat>, t: nat, v: nat)
    requires Indexed(n, cr, vals) && t in vals
    ensures var (dropped, idle) := DecId(n, cr, id, vals[t]);
      && |dropped.buckets| == n
      && Indexed(n, IncId(n, dropped, idle, v), vals[t := v])
      && (Exact(cr) ==> Exact(IncId(n, dropped, idle, v)) && (idle <==> id.UclampMax? && vals.Keys == {t}))
  {
    var (dropped, idle) := DecId(n, cr, id, vals[t]);
    var rest := vals - {t};
    assert rest[t := v] == vals[t := v];
    KeysWithout(vals, t);
    DecIndexed(n, cr, id, vals, t);
    hide DecId, IncId, Indexed, Exact;
    IncIndexed(n, dropped, idle, rest, t, v);
    if Exact(cr) {
      DecExact(n, cr, id, vals, t);
      IncExact(n, dropped, idle, rest, t, v);
    }
  }

  lemma KeysWithout(vals: map<nat, nat>, t: nat)
    requires t in vals
    ensures vals - {t} == map[] <==> vals.Keys == {t}
  {
    if vals - {t} == map[] {
      forall x | x in vals ensures x == t {
        assert x != t ==> x in vals - {t};
      }
    }
  }

  /** While the initial value hides every bucket, a refresh leaves it there, unless it brings in the largest clamp. */
  lemma HiddenRefreshed(n: Buckets, cr: ClampRq, vals: map<nat, nat>, t: nat, v: nat)
    requires Indexed(n, cr, vals) && t in vals && cr.value == SCHED_CAPACITY_SCALE && v <= SCHED_CAPACITY_SCALE
    requires Hidden(cr)
    ensures var (dropped, idle) := DecId(n, cr, UclampMax, vals[t]);
      && !idle && |dropped.buckets| == n
      && var cr' := IncId(n, dropped, false, v);
         cr'.value == SCHED_CAPACITY_SCALE && (if v < SCHED_CAPACITY_SCALE then Hidden(cr') else Exact(cr'))
  {
    DecNeverWarns(n, cr, vals, t);
    var (dropped, idle) := DecId(n, cr, UclampMax, vals[t]);
    DecIndexed(n, cr, UclampMax, vals, t);
    if v == SCHED_CAPACITY_SCALE {
      FullIsExact(n, dropped, vals - {t}, t);
    }
  }

  ghost predicate Hidden(cr: ClampRq) {
    forall b | 0 <= b < |cr.buckets| && cr.buckets[b].tasks > 0 :: cr.buckets[b].value < SCHED_CAPACITY_SCALE
  }

  lemma RefreshVals(active: map<nat, Clamps>, t: nat, v: nat)
    requires t in active
    ensures MinVals(active[t := Clamps(v, active[t].max)]) == MinVals(active)[t := v]
    ensures MaxVals(active[t := Clamps(v, active[t].max)]) == MaxVals(active)
    ensures MinVals(active[t := Clamps(active[t].min, v)]) == MinVals(active)
    ensures MaxVals(active[t := Clamps(active[t].min, v)]) == MaxVals(active)[t := v]
    ensures MinVals(active).Keys == MaxVals(active).Keys == active.Keys
  {
  }

  /** What a refresh does to a run queue whose index is right and whose idle flag is too. */
  lemma RefreshKeeps(n: Buckets, s: RqState, t: nat, id: ClampId, v: nat)
    requires Inv(n, s) && t in s.active && v <= SCHED_CAPACITY_SCALE
    ensures var s' := Refresh(n, s, t, id, v);
      && Right(n, s') && (Tight(s) ==> Tight(s'))
      && s'.active.Keys == s.active.Keys
      && (s'.idle <==> id.UclampMax? && s.active.Keys == {t} && Tight(s))
  {
    RefreshVals(s.active, t, v);
    if id.UclampMin? {
      RefreshMin(n, s, t, v);
    } else if Tight(s) {
      RefreshTight(n, s, t, v);
    } else {
      RefreshSaturated(n, s, t, v);
    }
  }

  lemma RefreshMin(n: Buckets, s: RqState, t: nat, v: nat)
    requires Inv(n, s) && t in s.active
    ensures var s' := Refresh(n, s, t, UclampMin, v);
      Right(n, s') && (Tight(s) ==> Tight(s')) && s'.active.Keys == s.active.Keys && !s'.idle
  {
    hide Indexed, Exact, IncId, DecId;
    RefreshVals(s.active, t, v);
    OneRefreshed(n, s.min, UclampMin, MinVals(s.active), t, v);
  }

  lemma RefreshTight(n: Buckets, s: RqState, t: nat, v: nat)
    requires Inv(n, s) && t in s.active && Tight(s)
    ensures var s' := Refresh(n, s, t, UclampMax, v);
      Right(n, s') && Tight(s') && s'.active.Keys == s.active.Keys && (s'.idle <==> s.active.Keys == {t})
  {
    hide Indexed, Exact, IncId, DecId;
    RefreshVals(s.active, t, v);
    OneRefreshed(n, s.max, UclampMax, MaxVals(s.active), t, v);
  }

  lemma RefreshSaturated(n: Buckets, s: RqState, t: nat, v: nat)
    requires Inv(n, s) && t in s.active && Saturated(s) && v <= SCHED_CAPACITY_SCALE
    ensures var s' := Refresh(n, s, t, UclampMax, v);
      Right(n, s') && s'.active.Keys == s.active.Keys && !s'.idle
  {
    hide Indexed, Exact, IncId, DecId;
    RefreshVals(s.active, t, v);
    OneRefreshed(n, s.max, UclampMax, MaxVals(s.active), t, v);
    HiddenRefreshed(n, s.max, MaxVals(s.active), t, v);
  }

  // ----- one step -----

  /** A counted enqueue that finds the flag left behind, and a clamp below the run queue's. */
  predicate Lowers(s: RqState, step: Step) {
    && step.Plain? && step.op.Enqueue? && s.used && step.op.enabled
    && s.idle && s.active != map[]
    && (step.op.clamps.min < s.min.value || step.op.clamps.max < s.max.value)
  }

  /** The run queue as it should be: not idle. */
  ghost function Awake(s: RqState): RqState {
    s.(idle := false)
  }

  lemma AwakeIsRight(n: Buckets, s: RqState)
    requires Right(n, s) && Stale(s)
    ensures Inv(n, Awake(s)) && Tight(Awake(s))
  {
    hide Indexed, Exact;
  }

  lemma RightStep(n: Buckets, s: RqState, step: Step)
    requires Right(n, s) && May(s, step) && !Lowers(s, step)
    ensures Right(n, After(n, s, step)) && (Tight(s) ==> Tight(After(n, s, step)))
  {
    if Stale(s) {
      match step
      case Plain(op) => StalePlain(n, s, op);
      case Update(t, id, v) => StaleUpdate(n, s, t, id, v);
    } else {
      FreshStep(n, s, step);
    }
  }

  lemma FreshStep(n: Buckets, s: RqState, step: Step)
    requires Right(n, s) && !Stale(s) && May(s, step)
    ensures Right(n, After(n, s, step)) && (Tight(s) ==> Tight(After(n, s, step)))
  {
    hide Exact, Next, Refresh, Saturated;
    assert s.(idle := s.idle && s.active == map[]) == s;
    match step
    case Plain(op) =>
      NextKeepsInv(n, s, op);
      InvIsRight(n, Next(n, s, op));
    case Update(t, id, v) =>
      if t in s.active {
        RefreshKeeps(n, s, t, id, v);
      } else {
        RefreshesNothing(n, s, t, id, v);
      }
  }

  lemma RefreshesNothing(n: Buckets, s: RqState, t: nat, id: ClampId, v: nat)
    requires |s.min.buckets| == |s.max.buckets| == n && t !in s.active
    ensures Refresh(n, s, t, id, v) == s
  {
  }

  lemma InvIsRight(n: Buckets, s: RqState)
    requires Inv(n, s)
    ensures Right(n, s)
  {
    hide Indexed, Exact;
    assert s.(idle := s.idle && s.active == map[]) == s;
  }

  /** With a clamp no lower than the run queue's, being flagged idle makes no difference to an enqueue. */
  lemma FlagIsHarmless(n: Buckets, cr: ClampRq, v: nat)
    requires |cr.buckets| == n && cr.value <= v
    ensures IncId(n, cr, true, v) == IncId(n, cr, false, v)
  {
  }

  lemma StalePlain(n: Buckets, s: RqState, op: Op)
    requires Right(n, s) && Stale(s) && Allowed(s, op) && !Lowers(s, Plain(op))
    ensures Right(n, Next(n, s, op)) && Tight(Next(n, s, op))
  {
    var s0 := Awake(s);
    AwakeIsRight(n, s);
    NextKeepsInv(n, s0, op);
    InvIsRight(n, Next(n, s0, op));
    hide Indexed, Exact, IncId, DecId, Saturated;
    match op
    case Enqueue(t, c, enabled) =>
      if s.used && enabled {
        FlagIsHarmless(n, s.min, c.min);
        FlagIsHarmless(n, s.max, c.max);
        assert Next(n, s, op) == Next(n, s0, op);
      }
    case Dequeue(t, enabled) =>
      if t in s.active {
        NoneLeft(s.active, t);
        assert Next(n, s, op) == Next(n, s0, op);
      }
    case SwitchOn =>
  }

  lemma NoneLeft(active: map<nat, Clamps>, t: nat)
    requires AtMostOne(active) && t in active
    ensures active - {t} == map[] && active.Keys == {t}
  {
  }

  lemma StaleUpdate(n: Buckets, s: RqState, t: nat, id: ClampId, v: nat)
    requires Right(n, s) && Stale(s) && v <= SCHED_CAPACITY_SCALE
    ensures Right(n, Refresh(n, s, t, id, v)) && Tight(Refresh(n, s, t, id, v))
  {
    var s0 := Awake(s);
    AwakeIsRight(n, s);
    if t in s.active {
      NoneLeft(s.active, t);
      RefreshKeeps(n, s0, t, id, v);
      StaleRefresh(n, s, t, id, v);
      hide Refresh, Indexed, Exact, Saturated;
      var s1 := Refresh(n, s0, t, id, v);
      assert t in s1.active && AtMostOne(s1.active);
      assert Inv(n, s1.(idle := false));
    }
  }

  /** A refresh of the only task does the same whatever the flag says. */
  lemma StaleRefresh(n: Buckets, s: RqState, t: nat, id: ClampId, v: nat)
    requires Inv(n, Awake(s)) && Tight(Awake(s)) && s.idle && s.active.Keys == {t}
    ensures Refresh(n, s, t, id, v) == Refresh(n, Awake(s), t, id, v).(idle := true)
  {
    LastVals(s.active, t);
    hide Indexed, Exact, IncId, DecId, Saturated, MinVals, MaxVals;
    if id.UclampMin? {
      LastExact(n, s.min, id, MinVals(s.active), t);
      FlagIsHarmless(n, DecId(n, s.min, id, s.active[t].min).0, v) by {
        DecIndexed(n, s.min, id, MinVals(s.active), t);
      }
    } else {
      LastExact(n, s.max, id, MaxVals(s.active), t);
    }
  }

  // ----- what a lowering does -----

  /** The run queue takes the lower clamp over, below a bucket with tasks in it. */
  lemma Lowered(n: Buckets, cr: ClampRq, vals: map<nat, nat>, v: nat)
    requires Indexed(n, cr, vals) && Exact(cr) && vals != map[] && v < cr.value
    ensures var cr' := IncId(n, cr, true, v);
      cr'.value == v && !Exact(cr') && exists b :: 0 <= b < n && cr'.buckets[b].tasks > 0 && cr'.buckets[b].value == cr.value
  {
    NonEmpty(n, cr, vals);
    var was, cr' := Top(cr.buckets, n), IncId(n, cr, true, v);
    var top := Top(cr'.buckets, n);
    assert BucketRight(n, cr, vals, was);
    assert cr'.buckets[was].tasks > 0 && cr'.buckets[was].value == cr.value;
    BucketsAreRanges(n, cr.value, v);
    BucketsAreRanges(n, v, cr.value);
    assert top == was;
  }

  lemma LoweringSpoils(n: Buckets, s: RqState, step: Step)
    requires Right(n, s) && Lowers(s, step)
    ensures !(Exact(After(n, s, step).min) && Exact(After(n, s, step).max))
  {
    AwakeIsRight(n, s);
    ValsAdd(s.active, 0, Clamps(0, 0));
    hide Indexed, Exact, IncId, Saturated;
    if step.op.clamps.min < s.min.value {
      Lowered(n, s.min, MinVals(s.active), step.op.clamps.min);
    } else {
      TightIsExact(Awake(s));
      Lowered(n, s.max, MaxVals(s.active), step.op.clamps.max);
    }
  }

  // ----- every run -----

  lemma StartIsRight(n: Buckets, s: RqState)
    requires GoneIdle(n, s)
    ensures Right(n, s) && Tight(s)
  {
    StartsWell(n, s);
    InvIsRight(n, s);
  }

  lemma {:induction false} RunKeepsRight(n: Buckets, steps: seq<Step>, ss: seq<RqState>, i: nat)
    requires IsRun(n, steps, ss) && GoneIdle(n, ss[0]) && i <= |steps|
    requires forall j | 0 <= j < i :: !Lowers(ss[j], steps[j])
    ensures Right(n, ss[i]) && Tight(ss[i])
  {
    hide Right, Tight, After, Lowers, May, GoneIdle;
    if i == 0 {
      StartIsRight(n, ss[0]);
    } else {
      RunKeepsRight(n, steps, ss, i - 1);
      RightStep(n, ss[i - 1], steps[i - 1]);
    }
  }

  /** Both values are those of the highest buckets with tasks. */
  ghost predicate BothExact(s: RqState) {
    Exact(s.min) && Exact(s.max)
  }

  lemma RightIsExact(n: Buckets, s: RqState)
    requires Right(n, s) && Tight(s)
    ensures BothExact(s)
  {
    hide Exact, Indexed;
  }

  /**
    With clamps refreshed in place, the values of a run queue that started idle are right all along if and
    only if no enqueue found the flag left behind by a refresh, and a clamp below the run queue's.
   */
  lemma ExactUnlessLowered(n: Buckets, steps: seq<Step>, ss: seq<RqState>, i: nat)
    requires IsRun(n, steps, ss) && GoneIdle(n, ss[0]) && i <= |steps|
    ensures (forall m | 0 <= m <= i :: BothExact(ss[m])) <==> (forall j | 0 <= j < i :: !Lowers(ss[j], steps[j]))
  {
    hide Right, Tight, After, Lowers, May, GoneIdle, BothExact;
    if forall j | 0 <= j < i :: !Lowers(ss[j], steps[j]) {
      forall m | 0 <= m <= i ensures BothExact(ss[m]) {
        RunKeepsRight(n, steps, ss, m);
        RightIsExact(n, ss[m]);
      }
    } else {
      var j := FirstLowering(steps, ss, i);
      RunKeepsRight(n, steps, ss, j);
      SpoiltAt(n, ss[j], steps[j]);
      assert !BothExact(ss[j + 1]);
    }
  }

  lemma SpoiltAt(n: Buckets, s: RqState, step: Step)
    requires Right(n, s) && Lowers(s, step)
    ensures |s.min.buckets| == |s.max.buckets| == n && !BothExact(After(n, s, step))
  {
    LoweringSpoils(n, s, step);
  }

  lemma FirstLowering(steps: seq<Step>, ss: seq<RqState>, i: nat) returns (j: nat)
    requires i <= |steps| < |ss| && exists k :: 0 <= k < i && Lowers(ss[k], steps[k])
    ensures j < i && Lowers(ss[j], steps[j]) && forall k | 0 <= k < j :: !Lowers(ss[k], steps[k])
  {
    hide Lowers;
    j := 0;
    while !Lowers(ss[j], steps[j])
      invariant j < i && forall k | 0 <= k < j :: !Lowers(ss[k], steps[k])
      decreases i - j
    {
      j := j + 1;
    }
  }

  /** The flag is left behind by a refresh of the UCLAMP_MAX of the only task, and by nothing else. */
  lemma LeftBehind(n: Buckets, steps: seq<Step>, ss: seq<RqState>, i: nat)
    requires IsRun(n, steps, ss) && GoneIdle(n, ss[0]) && i < |steps| && !Stale(ss[i])
    requires forall j | 0 <= j < i :: !Lowers(ss[j], steps[j])
    ensures Stale(ss[i + 1]) <==> steps[i].Update? && steps[i].id.UclampMax? && ss[i].active.Keys == {steps[i].task}
  {
    RunKeepsRight(n, steps, ss, i);
    LeftBehindBy(n, ss[i], steps[i]);
  }

  lemma LeftBehindBy(n: Buckets, s: RqState, step: Step)
    requires Right(n, s) && Tight(s) && !Stale(s) && May(s, step)
    ensures Stale(After(n, s, step)) <==> step.Update? && step.id.UclampMax? && s.active.Keys == {step.task}
  {
    hide Exact, Next, Refresh, Saturated;
    assert s.(idle := s.idle && s.active == map[]) == s;
    match step
    case Plain(op) =>
      NextKeepsInv(n, s, op);
    case Update(t, id, v) =>
      if t in s.active {
        RefreshKeeps(n, s, t, id, v);
      } else {
        RefreshesNothing(n, s, t, id, v);
      }
  }

  lemma FirstThere(n: Buckets, s: RqState, t: nat, c: Clamps)
    requires GoneIdle(n, s) && Inv(n, s) && Tight(s) && s.used && c.max <= SCHED_CAPACITY_SCALE
    ensures var s' := Next(n, s, Enqueue(t, c, true));
      && Inv(n, s') && Tight(s') && s'.used && s'.active.Keys == {t} && |s'.min.buckets| == |s'.max.buckets| == n
      && s'.min.value == c.min && s'.min.buckets[BucketId(n, c.min)] == Bucket(1, c.min)
  {
    NextKeepsInv(n, s, Enqueue(t, c, true));
    hide Inv, Tight, Saturated;
  }

  lemma Overtaken(n: Buckets, cr: ClampRq, v: nat, lower: nat)
    requires |cr.buckets| == n && cr.buckets[BucketId(n, v)] == Bucket(1, v) && lower < v
    ensures var cr' := IncId(n, cr, true, lower);
      cr'.value == lower && cr'.buckets[BucketId(n, v)].tasks > 0 && cr'.buckets[BucketId(n, v)].value == v
  {
    hide Delta;
  }

  /**
    It happens: a task is enqueued on an idle run queue, its UCLAMP_MAX is refreshed, and a task with a
    lower UCLAMP_MIN is enqueued. The run queue then has that clamp, below the one of the first task.
   */
  lemma LoweringHappens(n: Buckets, s: RqState, t: nat, u: nat, c: Clamps, d: Clamps, v: nat) returns (steps: seq<Step>, ss: seq<RqState>)
    requires GoneIdle(n, s) && s.used && t != u && d.min < c.min
    requires c.max <= SCHED_CAPACITY_SCALE && d.max <= SCHED_CAPACITY_SCALE && v <= SCHED_CAPACITY_SCALE
    ensures IsRun(n, steps, ss) && |steps| == 3 && ss[0] == s && Lowers(ss[2], steps[2])
    ensures ss[3].min.value == d.min && ss[3].min.buckets[BucketId(n, c.min)].tasks > 0
    ensures ss[3].min.buckets[BucketId(n, c.min)].value == c.min
  {
    StartsWell(n, s);
    hide Inv, Tight, Saturated, Right, IncId, DecId, BucketId;
    FirstThere(n, s, t, c);
    var s1 := Next(n, s, Enqueue(t, c, true));
    RefreshKeeps(n, s1, t, UclampMax, v);
    var s2 := Refresh(n, s1, t, UclampMax, v);
    Overtaken(n, s2.min, c.min, d.min);
    var s3 := Next(n, s2, Enqueue(u, d, true));
    hide Next, Refresh;
    steps := [Plain(Enqueue(t, c, true)), Update(t, UclampMax, v), Plain(Enqueue(u, d, true))];
    ss := [s, s1, s2, s3];
  }
}
