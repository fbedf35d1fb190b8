/**
  Wake queues: intrusive lists of tasks to be woken later. A task is linked through one `next`
  pointer, so it sits in at most one queue, whichever contexts try to add it.
 */
module WakeQueue {
  import opened Basics

  // ----- what a set of wake queues is for -----

  /**
    `waiting[h]`: tasks queued on head `h`, oldest first; `added` and `woken`: every successful
    add and every wake-up of that head, in order; `draining`: heads that `wake_up_q` walks;
    `held`: references to tasks owned outside the queues; `refs`: the tasks' reference counts.
   */
  datatype Queues = Queues(waiting: map<nat, seq<nat>>, added: map<nat, seq<nat>>, woken: map<nat, seq<nat>>,
                           draining: set<nat>, held: map<nat, int>, refs: map<nat, int>)

  datatype Op =
    | Init(head: nat)
    | Add(head: nat, task: nat)
    | AddSafe(head: nat, task: nat)
    | Begin(head: nat)
    | WakeOne(head: nat)

  function Get(m: map<nat, int>, t: nat): int {
    if t in m then m[t] else 0
  }

  ghost predicate Queued(waiting: map<nat, seq<nat>>, t: nat) {
    exists h :: h in waiting && t in waiting[h]
  }

  ghost predicate Enabled(q: Queues, op: Op) {
    match op
    case Init(h) => h !in q.waiting && h !in q.draining
    case Add(h, _) => h in q.waiting && h !in q.draining && h in q.added
    case AddSafe(h, t) => h in q.waiting && h !in q.draining && h in q.added && Get(q.held, t) > 0
    case Begin(h) => h in q.waiting && h !in q.draining
    case WakeOne(h) => h in q.waiting && h in q.draining && h in q.woken && q.waiting[h] != []
  }

  /** A task already queued anywhere is left alone; otherwise it goes to the end of this queue. */
  ghost function AddTo(q: Queues, h: nat, t: nat): Queues
    requires h in q.waiting && h in q.added
  {
    if Queued(q.waiting, t) then q
    else q.(waiting := q.waiting[h := q.waiting[h] + [t]], added := q.added[h := q.added[h] + [t]])
  }

  ghost function Next(q: Queues, op: Op): Queues
    requires Enabled(q, op)
  {
    match op
    case Init(h) => q.(waiting := q.waiting[h := []], added := q.added[h := []], woken := q.woken[h := []])
    case Add(h, t) =>
      if Queued(q.waiting, t) then q else AddTo(q, h, t).(refs := q.refs[t := Get(q.refs, t) + 1])
    case AddSafe(h, t) =>
      var q' := AddTo(q, h, t).(held := q.held[t := Get(q.held, t) - 1]);
      if Queued(q.waiting, t) then q'.(refs := q.refs[t := Get(q.refs, t) - 1]) else q'
    case Begin(h) => q.(draining := q.draining + {h})
    case WakeOne(h) =>
      var t := q.waiting[h][0];
      q.(waiting := q.waiting[h := q.waiting[h][1..]], woken := q.woken[h := q.woken[h] + [t]],
         refs := q.refs[t := Get(q.refs, t) - 1])
  }

  ghost predicate HeadInv(q: Queues, h: nat)
    requires h in q.waiting
  {
    && h in q.added && h in q.woken
    && q.added[h] == q.woken[h] + q.waiting[h]
    && Distinct(q.added[h])
    && (h !in q.draining ==> q.woken[h] == [])
  }

  /**
    Each queue wakes what was added to it, in order and without repetition; no task sits in two
    queues; every queued task holds exactly one reference on top of those owned outside.
   */
  ghost predicate Inv(q: Queues) {
    && (forall h | h in q.waiting :: HeadInv(q, h))
    && (forall g, h, t | g in q.waiting && h in q.waiting && t in q.waiting[g] && t in q.waiting[h] :: g == h)
    && (forall t: nat :: Get(q.refs, t) == Get(q.held, t) + if Queued(q.waiting, t) then 1 else 0)
  }

  lemma AddKeepsInv(q: Queues, h: nat, t: nat)
    requires Inv(q) && h in q.waiting && h !in q.draining && !Queued(q.waiting, t)
    ensures h in q.added
    ensures var q' := AddTo(q, h, t);
      && (forall g | g in q'.waiting :: HeadInv(q', g))
      && (forall f, g, x | f in q'.waiting && g in q'.waiting && x in q'.waiting[f] && x in q'.waiting[g] :: f == g)
      && (forall x: nat :: Queued(q'.waiting, x) <==> x == t || Queued(q.waiting, x))
  {
    assert HeadInv(q, h);
    forall g | g in q.waiting ensures HeadInv(AddTo(q, h, t), g) {
      AddKeepsHead(q, h, t, g);
    }
    hide HeadInv, Queued, Get;
    forall x: nat ensures Queued(AddTo(q, h, t).waiting, x) <==> x == t || Queued(q.waiting, x) {
      QueuedAfterAdd(q, h, t, x);
    }
    AddKeepsApart(q, h, t);
  }

  lemma NotInQueue(q: Queues, h: nat, t: nat)
    requires h in q.waiting && !Queued(q.waiting, t)
    ensures t !in q.waiting[h]
  {
  }

  lemma AddKeepsHead(q: Queues, h: nat, t: nat, g: nat)
    requires h in q.waiting && h in q.added && h !in q.draining && !Queued(q.waiting, t)
    requires g in q.waiting && HeadInv(q, g) && HeadInv(q, h)
    ensures HeadInv(AddTo(q, h, t), g)
  {
    NotInQueue(q, h, t);
    hide Distinct, Queued;
    if g == h {
      var ts := q.waiting[h];
      assert q.woken[h] == [] && [] + ts == ts && [] + (ts + [t]) == ts + [t];
      assert q.added[h] == ts;
      DistinctAppend(ts, t);
    }
  }

  lemma AddKeepsApart(q: Queues, h: nat, t: nat)
    requires h in q.waiting && h in q.added && !Queued(q.waiting, t)
    requires forall f, g, x | f in q.waiting && g in q.waiting && x in q.waiting[f] && x in q.waiting[g] :: f == g
    ensures var w := AddTo(q, h, t).waiting;
      forall f, g, x | f in w && g in w && x in w[f] && x in w[g] :: f == g
  {
    var w := AddTo(q, h, t).waiting;
    forall f, g, x | f in w && g in w && x in w[f] && x in w[g] ensures f == g {
      if x == t {
        assert f != h ==> Queued(q.waiting, t);
        assert g != h ==> Queued(q.waiting, t);
      } else {
        assert x in q.waiting[f] && x in q.waiting[g];
      }
    }
  }

  lemma QueuedAfterAdd(q: Queues, h: nat, t: nat, x: nat)
    requires h in q.waiting && h in q.added && !Queued(q.waiting, t)
    ensures Queued(AddTo(q, h, t).waiting, x) <==> x == t || Queued(q.waiting, x)
  {
    var w, w' := q.waiting, AddTo(q, h, t).waiting;
    assert w'[h] == w[h] + [t];
    if x == t {
      assert h in w' && t in w'[h];
    }
    if Queued(w, x) {
      var g :| g in w && x in w[g];
      assert g in w' && x in w'[g];
    }
    if Queued(w', x) && x != t {
      var g :| g in w' && x in w'[g];
      assert g in w && x in w[g];
    }
  }

  lemma WakeKeepsInv(q: Queues, h: nat)
    requires Inv(q) && Enabled(q, WakeOne(h))
    ensures Inv(Next(q, WakeOne(h)))
  {
    var q', t := Next(q, WakeOne(h)), q.waiting[h][0];
    assert HeadInv(q, h);
    assert q.waiting[h] == [t] + q.waiting[h][1..];
    assert q'.added[h] == q'.woken[h] + q'.waiting[h];
    forall g | g in q'.waiting ensures HeadInv(q', g) {
      assert g != h ==> HeadInv(q, g);
    }
    forall x: nat ensures Queued(q'.waiting, x) <==> x != t && Queued(q.waiting, x) {
      QueuedAfterWake(q, h, x);
    }
    assert Queued(q.waiting, t);
  }

  lemma QueuedAfterWake(q: Queues, h: nat, x: nat)
    requires Inv(q) && Enabled(q, WakeOne(h))
    ensures Queued(Next(q, WakeOne(h)).waiting, x) <==> x != q.waiting[h][0] && Queued(q.waiting, x)
  {
    var w, w' := q.waiting, Next(q, WakeOne(h)).waiting;
    var t := w[h][0];
    assert HeadInv(q, h);
    assert t !in w[h][1..] by {
      assert forall i | 0 <= i < |w[h]| :: w[h][i] == q.added[h][|q.woken[h]| + i];
    }
    if x != t && Queued(w, x) {
      var g :| g in w && x in w[g];
      assert g == h ==> x in w[h][1..];
      assert g in w' && x in w'[g];
    }
    if Queued(w', x) {
      var g :| g in w' && x in w'[g];
      assert g in w && x in w[g];
    }
  }

  lemma InitKeepsInv(q: Queues, h: nat)
    requires Inv(q) && Enabled(q, Init(h))
    ensures Inv(Next(q, Init(h)))
  {
    var q' := Next(q, Init(h));
    forall g | g in q'.waiting ensures HeadInv(q', g) {
      assert g != h ==> HeadInv(q, g);
    }
    forall x: nat ensures Queued(q'.waiting, x) <==> Queued(q.waiting, x) {
      QueuedAfterInit(q, h, x);
    }
  }

  lemma NextKeepsInv(q: Queues, op: Op)
    requires Inv(q) && Enabled(q, op)
    ensures Inv(Next(q, op))
  {
    match op
    case Init(h) => InitKeepsInv(q, h);
    case Add(h, t) =>
      if !Queued(q.waiting, t) {
        AddKeepsInv(q, h, t);
      }
    case AddSafe(h, t) =>
      if !Queued(q.waiting, t) {
        AddKeepsInv(q, h, t);
      } else {
        assert AddTo(q, h, t) == q;
        forall g | g in q.waiting ensures HeadInv(Next(q, op), g) {
          assert HeadInv(q, g);
        }
      }
    case Begin(h) =>
      forall g | g in q.waiting ensures HeadInv(Next(q, op), g) {
        assert HeadInv(q, g);
      }
    case WakeOne(h) => WakeKeepsInv(q, h);
  }

  ghost predicate IsRun(ops: seq<Op>, qs: seq<Queues>) {
    && |qs| == |ops| + 1
    && qs[0].waiting == map[] && qs[0].draining == {} && qs[0].refs == qs[0].held
    && forall i | 0 <= i < |ops| :: Enabled(qs[i], ops[i]) && qs[i + 1] == Next(qs[i], ops[i])
  }

  lemma {:induction false} RunKeepsInv(ops: seq<Op>, qs: seq<Queues>, i: nat)
    requires IsRun(ops, qs) && i <= |ops|
    ensures Inv(qs[i])
  {
    if i == 0 {
      assert forall t: nat :: !Queued(qs[0].waiting, t);
    } else {
      RunKeepsInv(ops, qs, i - 1);
      NextKeepsInv(qs[i - 1], ops[i - 1]);
    }
  }

  /** In every run: a drained queue has woken exactly the tasks added to it, once each, in that order. */
  lemma DrainedWokeAll(ops: seq<Op>, qs: seq<Queues>, i: nat, h: nat)
    requires IsRun(ops, qs) && i <= |ops| && h in qs[i].waiting && qs[i].waiting[h] == []
    ensures h in qs[i].added && h in qs[i].woken
    ensures qs[i].woken[h] == qs[i].added[h] && Distinct(qs[i].woken[h])
  {
    RunKeepsInv(ops, qs, i);
    assert HeadInv(qs[i], h);
  }

  /** ... and once no task is queued, no reference is left over and none is missing. */
  lemma ReferencesBalance(ops: seq<Op>, qs: seq<Queues>, i: nat, t: nat)
    requires IsRun(ops, qs) && i <= |ops|
    ensures Get(qs[i].refs, t) == Get(qs[i].held, t) + if Queued(qs[i].waiting, t) then 1 else 0
  {
    RunKeepsInv(ops, qs, i);
  }

  // ----- what is added, and who holds references -----

  /** The adds to head `h` among the first `i` operations that found their task in no queue, in order. */
  ghost function Added(ops: seq<Op>, qs: seq<Queues>, i: nat, h: nat): seq<nat>
    requires i <= |ops| < |qs|
  {
    if i == 0 then []
    else
      var op := ops[i - 1];
      Added(ops, qs, i - 1, h)
      + if (op.Add? || op.AddSafe?) && op.head == h && !Queued(qs[i - 1].waiting, op.task) then [op.task] else []
  }

  lemma AddedStep(q: Queues, op: Op, h: nat)
    requires Enabled(q, op) && h in q.waiting && h in q.added
    ensures h in Next(q, op).waiting && h in Next(q, op).added
    ensures Next(q, op).added[h]
         == q.added[h] + if (op.Add? || op.AddSafe?) && op.head == h && !Queued(q.waiting, op.task) then [op.task] else []
  {
    hide Queued;
  }

  lemma NotYetAdded(q: Queues, op: Op, h: nat)
    requires Enabled(q, op) && h !in q.waiting
    ensures !((op.Add? || op.AddSafe?) && op.head == h)
    ensures h in Next(q, op).waiting ==> h in Next(q, op).added && Next(q, op).added[h] == []
  {
    hide Queued;
  }

  lemma {:induction false} AddedIsRecorded(ops: seq<Op>, qs: seq<Queues>, i: nat, h: nat)
    requires IsRun(ops, qs) && i <= |ops|
    ensures h !in qs[i].waiting ==> Added(ops, qs, i, h) == []
    ensures h in qs[i].waiting ==> h in qs[i].added && qs[i].added[h] == Added(ops, qs, i, h)
    decreases i
  {
    hide Queued, Next, Enabled;
    if i > 0 {
      AddedIsRecorded(ops, qs, i - 1, h);
      if h in qs[i - 1].waiting {
        AddedStep(qs[i - 1], ops[i - 1], h);
      } else {
        NotYetAdded(qs[i - 1], ops[i - 1], h);
      }
    }
  }

  /** In every run each queue has woken, and has still to wake, exactly the tasks that were added to it, in that order. */
  lemma WokenThenWaiting(ops: seq<Op>, qs: seq<Queues>, i: nat, h: nat)
    requires IsRun(ops, qs) && i <= |ops| && h in qs[i].waiting
    ensures h in qs[i].woken && qs[i].woken[h] + qs[i].waiting[h] == Added(ops, qs, i, h)
  {
    RunKeepsInv(ops, qs, i);
    AddedIsRecorded(ops, qs, i, h);
    assert HeadInv(qs[i], h);
    hide Queued, Next, Enabled, Added;
  }

  function GivenUp(ops: seq<Op>, i: nat, t: nat): nat
    requires i <= |ops|
  {
    if i == 0 then 0 else GivenUp(ops, i - 1, t) + if ops[i - 1].AddSafe? && ops[i - 1].task == t then 1 else 0
  }

  lemma HeldStep(q: Queues, op: Op, t: nat)
    requires Enabled(q, op)
    ensures Get(Next(q, op).held, t) == Get(q.held, t) - if op.AddSafe? && op.task == t then 1 else 0
  {
    hide Queued;
  }

  /** A caller gives its reference up by `wake_q_add_safe` and by nothing else. */
  lemma {:induction false} ReferencesGivenUp(ops: seq<Op>, qs: seq<Queues>, i: nat, t: nat)
    requires IsRun(ops, qs) && i <= |ops|
    ensures Get(qs[i].held, t) == Get(qs[0].held, t) - GivenUp(ops, i, t)
    decreases i
  {
    hide Queued, Next, Enabled, Get;
    if i > 0 {
      ReferencesGivenUp(ops, qs, i - 1, t);
      HeldStep(qs[i - 1], ops[i - 1], t);
    }
  }

  // ----- the linked representation -----

  /** A `wake_q` pointer: null, the end marker, or a task's node. */
  datatype Link = Null | Tail | Node(task: nat)

  /** `last` is the task whose `next` the tail pointer addresses; `None` stands for the `first` field. */
  datatype Head = Head(first: Link, last: Option<nat>)

  function NextOf(next: map<nat, Link>, t: nat): Link {
    if t in next then next[t] else Null
  }

  /** Following `next` from `link` spells `ts` and ends at the marker. */
  ghost predicate Spells(next: map<nat, Link>, link: Link, ts: seq<nat>)
    decreases |ts|
  {
    if ts == [] then link == Tail
    else link == Node(ts[0]) && Spells(next, NextOf(next, ts[0]), ts[1..])
  }

  lemma {:induction false} SpellsFrame(next: map<nat, Link>, next': map<nat, Link>, link: Link, ts: seq<nat>)
    requires Spells(next, link, ts) && forall t | t in ts :: NextOf(next', t) == NextOf(next, t)
    ensures Spells(next', link, ts)
    decreases |ts|
  {
    if ts != [] {
      SpellsFrame(next, next', NextOf(next, ts[0]), ts[1..]);
    }
  }

  /** Linking a new node behind the last one. */
  lemma {:induction false} SpellsAppend(next: map<nat, Link>, link: Link, ts: seq<nat>, t: nat)
    requires ts != [] && Spells(next, link, ts) && Distinct(ts + [t])
    ensures Spells(next[t := Tail][ts[|ts| - 1] := Node(t)], link, ts + [t])
    decreases |ts|
  {
    var next' := next[t := Tail][ts[|ts| - 1] := Node(t)];
    assert (ts + [t])[1..] == ts[1..] + [t];
    if |ts| == 1 {
      assert (ts + [t])[1] == t && (ts + [t])[0] != (ts + [t])[1];
      assert Spells(next', Node(t), [t]);
    } else {
      assert ts[0] == (ts + [t])[0] && ts[|ts| - 1] == (ts + [t])[|ts| - 1] && t == (ts + [t])[|ts|];
      assert forall i, j | 0 <= i < j < |ts[1..] + [t]| :: (ts[1..] + [t])[i] == (ts + [t])[i + 1] && (ts[1..] + [t])[j] == (ts + [t])[j + 1];
      SpellsAppend(next, NextOf(next, ts[0]), ts[1..], t);
    }
  }

  /** Filling, a head's list starts at `first` and `last` is its end; draining, it starts at the walk's cursor. */
  ghost predicate HeadOk(next: map<nat, Link>, head: Head, walking: bool, cursor: Link, ts: seq<nat>) {
    if walking then Spells(next, cursor, ts)
    else Spells(next, head.first, ts) && head.last == if ts == [] then None else Some(ts[|ts| - 1])
  }

  /** The pointers spell the queues, and a task is queued exactly when its pointer is not null. */
  ghost predicate Linked(next: map<nat, Link>, heads: map<nat, Head>, cursors: map<nat, Link>, q: Queues) {
    && heads.Keys == q.waiting.Keys
    && cursors.Keys == q.draining
    && (forall h | h in heads ::
          HeadOk(next, heads[h], h in cursors, if h in cursors then cursors[h] else Null, q.waiting[h]))
    && (forall t: nat :: NextOf(next, t) != Null <==> Queued(q.waiting, t))
  }

  /** The pointer updates of a successful add. */
  function LinkIn(next: map<nat, Link>, head: Head, t: nat): (map<nat, Link>, Head) {
    match head.last
    case None => (next[t := Tail], Head(Node(t), Some(t)))
    case Some(l) => (next[t := Tail][l := Node(t)], Head(head.first, Some(t)))
  }

  lemma OtherHeadKept(next: map<nat, Link>, next': map<nat, Link>, heads: map<nat, Head>, cursors: map<nat, Link>, q: Queues, g: nat)
    requires Linked(next, heads, cursors, q) && g in heads
    requires forall x | x in q.waiting[g] :: NextOf(next', x) == NextOf(next, x)
    ensures HeadOk(next', heads[g], g in cursors, if g in cursors then cursors[g] else Null, q.waiting[g])
  {
    SpellsFrame(next, next', if g in cursors then cursors[g] else heads[g].first, q.waiting[g]);
  }

  lemma AddedHead(next: map<nat, Link>, head: Head, ts: seq<nat>, t: nat)
    requires HeadOk(next, head, false, Null, ts) && Distinct(ts + [t])
    ensures HeadOk(LinkIn(next, head, t).0, LinkIn(next, head, t).1, false, Null, ts + [t])
  {
    if ts == [] {
      assert [t][1..] == [];
      assert Spells(next[t := Tail], Node(t), [t]);
    } else {
      SpellsAppend(next, head.first, ts, t);
    }
  }

  lemma DistinctAppend(s: seq<nat>, t: nat)
    requires Distinct(s) && t !in s
    ensures Distinct(s + [t])
  {
  }

  lemma LinkedDomains(next: map<nat, Link>, heads: map<nat, Head>, cursors: map<nat, Link>, q: Queues)
    requires Linked(next, heads, cursors, q)
    ensures heads.Keys == q.waiting.Keys && cursors.Keys == q.draining
  {
  }

  lemma LinkedAddHeads(next: map<nat, Link>, heads: map<nat, Head>, cursors: map<nat, Link>, q: Queues, h: nat, t: nat, g: nat)
    requires Inv(q) && Linked(next, heads, cursors, q) && h in heads && h !in cursors && !Queued(q.waiting, t)
    requires g in heads && h in q.waiting && g in q.waiting && h in q.added
    ensures var (next', head') := LinkIn(next, heads[h], t);
      HeadOk(next', heads[h := head'][g], g in cursors, if g in cursors then cursors[g] else Null, AddTo(q, h, t).waiting[g])
  {
    if g == h {
      OwnHeadAdded(next, heads, cursors, q, h, t);
    } else {
      OthersUntouched(next, heads, cursors, q, h, t, g);
      OtherHeadKept(next, LinkIn(next, heads[h], t).0, heads, cursors, q, g);
    }
  }

  lemma OwnHeadAdded(next: map<nat, Link>, heads: map<nat, Head>, cursors: map<nat, Link>, q: Queues, h: nat, t: nat)
    requires Inv(q) && Linked(next, heads, cursors, q) && h in heads && h !in cursors && !Queued(q.waiting, t)
    ensures var (next', head') := LinkIn(next, heads[h], t); HeadOk(next', head', false, Null, q.waiting[h] + [t])
  {
    var ts := q.waiting[h];
    HeadFacts(q, h);
    assert HeadInv(q, h);
    assert HeadOk(next, heads[h], false, Null, ts);
    assert q.added[h] == ts;
    assert t !in ts;
    DistinctAppend(ts, t);
    AddedHead(next, heads[h], ts, t);
  }

  lemma LinkedAddNull(next: map<nat, Link>, heads: map<nat, Head>, cursors: map<nat, Link>, q: Queues, h: nat, t: nat, x: nat)
    requires Linked(next, heads, cursors, q) && h in heads && h !in cursors && !Queued(q.waiting, t)
    requires h in q.waiting && h in q.added
    ensures NextOf(LinkIn(next, heads[h], t).0, x) != Null <==> Queued(AddTo(q, h, t).waiting, x)
  {
    var ts := q.waiting[h];
    QueuedAfterAdd(q, h, t, x);
    if ts != [] {
      assert ts[|ts| - 1] in ts;
      assert Queued(q.waiting, ts[|ts| - 1]);
    }
  }

  lemma LinkedAdd(next: map<nat, Link>, heads: map<nat, Head>, cursors: map<nat, Link>, q: Queues, h: nat, t: nat)
    requires Inv(q) && Linked(next, heads, cursors, q) && h in heads && h !in cursors && !Queued(q.waiting, t)
    ensures h in q.waiting && h in q.added
    ensures var (next', head') := LinkIn(next, heads[h], t);
      Linked(next', heads[h := head'], cursors, AddTo(q, h, t))
  {
    hide Inv, HeadOk, Queued, LinkIn;
    LinkedDomains(next, heads, cursors, q);
    HeadsKnown(q, h);
    forall g | g in heads
      ensures var (next', head') := LinkIn(next, heads[h], t);
        HeadOk(next', heads[h := head'][g], g in cursors, if g in cursors then cursors[g] else Null, AddTo(q, h, t).waiting[g])
    {
      LinkedAddHeads(next, heads, cursors, q, h, t, g);
    }
    forall x: nat ensures NextOf(LinkIn(next, heads[h], t).0, x) != Null <==> Queued(AddTo(q, h, t).waiting, x) {
      LinkedAddNull(next, heads, cursors, q, h, t, x);
    }
  }

  lemma HeadsKnown(q: Queues, h: nat)
    requires Inv(q) && h in q.waiting
    ensures h in q.added && h in q.woken
  {
    assert HeadInv(q, h);
  }

  lemma OthersUntouched(next: map<nat, Link>, heads: map<nat, Head>, cursors: map<nat, Link>, q: Queues, h: nat, t: nat, g: nat)
    requires Inv(q) && Linked(next, heads, cursors, q) && h in heads && h !in cursors && !Queued(q.waiting, t)
    requires g in heads && g != h
    ensures forall x | x in q.waiting[g] :: NextOf(LinkIn(next, heads[h], t).0, x) == NextOf(next, x)
  {
    var ts := q.waiting[h];
    forall x | x in q.waiting[g] ensures x != t && (ts != [] ==> x != ts[|ts| - 1]) {
      assert Queued(q.waiting, x);
      if ts != [] {
        assert ts[|ts| - 1] in ts;
      }
    }
  }

  /** Unlinking the first task of a walk. */
  lemma LinkedWakeHeads(next: map<nat, Link>, heads: map<nat, Head>, cursors: map<nat, Link>, q: Queues, h: nat, g: nat)
    requires Inv(q) && Linked(next, heads, cursors, q) && h in heads && h in cursors && g in heads
    requires Enabled(q, WakeOne(h)) && g in q.waiting
    ensures var t := q.waiting[h][0]; var cursors' := cursors[h := NextOf(next, t)];
      && cursors[h] == Node(t)
      && HeadOk(next[t := Null], heads[g], g in cursors', if g in cursors' then cursors'[g] else Null,
                Next(q, WakeOne(h)).waiting[g])
  {
    var ts := q.waiting[h];
    var next' := next[ts[0] := Null];
    assert ts[0] in ts;
    assert HeadOk(next, heads[h], true, cursors[h], ts);
    if g == h {
      FirstNotLater(q, h);
      SpellsFrame(next, next', NextOf(next, ts[0]), ts[1..]);
    } else {
      OtherHeadKept(next, next', heads, cursors, q, g);
    }
  }

  lemma LinkedWake(next: map<nat, Link>, heads: map<nat, Head>, cursors: map<nat, Link>, q: Queues, h: nat)
    requires Inv(q) && Linked(next, heads, cursors, q) && h in heads && h in cursors
    requires Enabled(q, WakeOne(h))
    ensures var t := q.waiting[h][0];
      && cursors[h] == Node(t)
      && Linked(next[t := Null], heads, cursors[h := NextOf(next, t)], Next(q, WakeOne(h)))
  {
    hide Inv, HeadOk, Queued;
    LinkedDomains(next, heads, cursors, q);
    var t, q' := q.waiting[h][0], Next(q, WakeOne(h));
    var cursors' := cursors[h := NextOf(next, t)];
    LinkedWakeHeads(next, heads, cursors, q, h, h);
    forall g | g in heads
      ensures HeadOk(next[t := Null], heads[g], g in cursors', if g in cursors' then cursors'[g] else Null, q'.waiting[g])
    {
      LinkedWakeHeads(next, heads, cursors, q, h, g);
    }
    forall x: nat ensures NextOf(next[t := Null], x) != Null <==> Queued(q'.waiting, x) {
      QueuedAfterWake(q, h, x);
    }
  }

  lemma FirstNotLater(q: Queues, h: nat)
    requires Inv(q) && h in q.waiting && q.waiting[h] != []
    ensures q.waiting[h][0] !in q.waiting[h][1..]
  {
    assert HeadInv(q, h);
    assert forall i | 0 <= i < |q.waiting[h]| :: q.waiting[h][i] == q.added[h][|q.woken[h]| + i];
  }

  class WakeQueues {
    var next: map<nat, Link>
    var heads: map<nat, Head>
    var cursors: map<nat, Link>
    var refs: map<nat, int>
    var woken: map<nat, seq<nat>>
    ghost var q: Queues

    ghost predicate Valid()
      reads this
    {
      Inv(q) && Linked(next, heads, cursors, q) && refs == q.refs && woken == q.woken
    }

    constructor (counts: map<nat, int>)
      ensures Valid() && q == Queues(map[], map[], map[], {}, counts, counts)
    {
      next, heads, cursors, refs, woken := map[], map[], map[], counts, map[];
      q := Queues(map[], map[], map[], {}, counts, counts);
    }

    method WakeQInit(h: nat)
      requires Valid() && Enabled(q, Init(h))
      modifies this
      ensures Valid() && q == Next(old(q), Init(h))
      ensures q.waiting == old(q.waiting)[h := []] && refs == old(refs) && woken == old(woken)[h := []]
    {
      InitKeepsInv(q, h);
      InitLinked(next, heads, cursors, q, h);
      heads := heads[h := Head(Tail, None)];
      woken := woken[h := []];
      q := Next(q, Init(h));
    }

    /** `__wake_q_add`: take the task's node if it is free and link it behind the last one. */
    method TryAdd(h: nat, t: nat) returns (added: bool)
      requires Valid() && h in heads && h !in cursors
      modifies this`next, this`heads
      ensures added == !Queued(q.waiting, t)
      ensures h in q.added && Linked(next, heads, cursors, AddTo(q, h, t))
      ensures !added ==> next == old(next) && heads == old(heads)
    {
      assert HeadInv(q, h);
      if NextOf(next, t) != Null {
        return false;
      }
      LinkedAdd(next, heads, cursors, q, h, t);
      next := next[t := Tail];
      match heads[h].last {
        case None => heads := heads[h := Head(Node(t), Some(t))];
        case Some(l) =>
          next := next[l := Node(t)];
          heads := heads[h := Head(heads[h].first, Some(t))];
      }
      return true;
    }

    method WakeQAdd(h: nat, t: nat)
      requires Valid() && h in heads && h !in cursors && Enabled(q, Add(h, t))
      modifies this
      ensures Valid() && q == Next(old(q), Add(h, t))
      ensures if old(Queued(q.waiting, t)) then q.waiting == old(q.waiting) && refs == old(refs)
              else q.waiting == old(q.waiting)[h := old(q.waiting)[h] + [t]] && refs == old(refs)[t := Get(old(refs), t) + 1]
      ensures q.held == old(q.held) && woken == old(woken)
    {
      hide Inv, Linked;
      NextKeepsInv(q, Add(h, t));
      var added := TryAdd(h, t);
      if added {
        refs := refs[t := Get(refs, t) + 1];
      }
      LinkedRefs(next, heads, cursors, AddTo(q, h, t), Next(q, Add(h, t)));
      q := Next(q, Add(h, t));
    }

    /** The caller's own reference goes to the queue, or is dropped if the task is queued already. */
    method WakeQAddSafe(h: nat, t: nat)
      requires Valid() && h in heads && h !in cursors && Enabled(q, AddSafe(h, t))
      modifies this
      ensures Valid() && q == Next(old(q), AddSafe(h, t))
      ensures if old(Queued(q.waiting, t)) then q.waiting == old(q.waiting) && refs == old(refs)[t := Get(old(refs), t) - 1]
              else q.waiting == old(q.waiting)[h := old(q.waiting)[h] + [t]] && refs == old(refs)
      ensures q.held == old(q.held)[t := Get(old(q.held), t) - 1] && woken == old(woken)
    {
      hide Inv, Linked;
      NextKeepsInv(q, AddSafe(h, t));
      var added := TryAdd(h, t);
      if !added {
        refs := refs[t := Get(refs, t) - 1];
      }
      LinkedRefs(next, heads, cursors, AddTo(q, h, t), Next(q, AddSafe(h, t)));
      q := Next(q, AddSafe(h, t));
    }

    /** The start of `wake_up_q`. */
    method BeginWake(h: nat)
      requires Valid() && Enabled(q, Begin(h))
      modifies this
      ensures Valid() && q == Next(old(q), Begin(h))
      ensures q.waiting == old(q.waiting) && refs == old(refs) && woken == old(woken)
    {
      NextKeepsInv(q, Begin(h));
      BeginLinked(next, heads, cursors, q, h);
      cursors := cursors[h := heads[h].first];
      q := Next(q, Begin(h));
    }

    /** One round of `wake_up_q`: unlink, wake, put. Other contexts may add to their own heads in between. */
    method WakeNext(h: nat)
      requires Valid() && Enabled(q, WakeOne(h))
      modifies this
      ensures Valid() && q == Next(old(q), WakeOne(h))
      ensures var t := old(q.waiting)[h][0];
        && q.waiting == old(q.waiting)[h := old(q.waiting)[h][1..]] && woken == old(woken)[h := old(woken)[h] + [t]]
        && refs == old(refs)[t := Get(old(refs), t) - 1]
      ensures q.held == old(q.held)
    {
      hide Inv, Linked;
      LinkedDomains(next, heads, cursors, q);
      NextKeepsInv(q, WakeOne(h));
      LinkedWake(next, heads, cursors, q, h);
      var task := cursors[h].task;
      cursors := cursors[h := NextOf(next, task)];
      next := next[task := Null];
      woken := woken[h := woken[h] + [task]];
      refs := refs[task := Get(refs, task) - 1];
      q := Next(q, WakeOne(h));
    }

    /**
      `wake_up_q` without interference: everything added to this head is woken, in order, and the
      reference that the queue held on each task is released; nothing else changes.
     */
    method WakeUpQ(h: nat)
      requires Valid() && Enabled(q, Begin(h))
      modifies this
      ensures Valid() && h in q.waiting && q.waiting[h] == []
      ensures h in q.woken && q.woken[h] == old(q.added[h]) && Distinct(q.woken[h])
      ensures q.waiting == old(q.waiting)[h := []] && q.added == old(q.added) && q.held == old(q.held)
      ensures forall t: nat :: Get(refs, t) == old(Get(refs, t)) - if t in q.woken[h] then 1 else 0
    {
      hide Inv, Linked, Distinct, Get, Queued;
      HeadFacts(q, h);
      ghost var before := q;
      BeginWake(h);
      HeadFacts(q, h);
      WalkFacts(next, heads, cursors, q, h);
      while cursors[h] != Tail
        invariant Valid() && h in q.waiting && h in q.draining && h in cursors && h in q.woken
        invariant cursors[h] == Tail <==> q.waiting[h] == []
        invariant q.added == before.added && q.held == before.held && h in q.added
        invariant q.waiting == before.waiting[h := q.waiting[h]]
        decreases |q.waiting[h]|
      {
        WakeNext(h);
        HeadFacts(q, h);
        WalkFacts(next, heads, cursors, q, h);
      }
      HeadFacts(q, h);
      forall t: nat ensures Get(q.refs, t) == Get(before.refs, t) - if t in before.waiting[h] then 1 else 0 {
        ReleasedOnce(before, q, h, t);
      }
    }
  }

  /** Emptying one queue releases one reference on each of its tasks. */
  lemma ReleasedOnce(q: Queues, q': Queues, h: nat, t: nat)
    requires Inv(q) && Inv(q') && h in q.waiting && q'.waiting == q.waiting[h := []] && q'.held == q.held
    ensures Get(q'.refs, t) == Get(q.refs, t) - if t in q.waiting[h] then 1 else 0
  {
    QueuedElsewhere(q, h, t);
    hide HeadInv, Queued;
  }

  lemma QueuedElsewhere(q: Queues, h: nat, t: nat)
    requires h in q.waiting
    requires forall f, g, x | f in q.waiting && g in q.waiting && x in q.waiting[f] && x in q.waiting[g] :: f == g
    ensures Queued(q.waiting[h := []], t) <==> Queued(q.waiting, t) && t !in q.waiting[h]
    ensures t in q.waiting[h] ==> Queued(q.waiting, t)
  {
    var w := q.waiting[h := []];
    if Queued(q.waiting, t) && t !in q.waiting[h] {
      var g :| g in q.waiting && t in q.waiting[g];
      assert g in w && t in w[g];
    }
    if Queued(w, t) {
      var g :| g in w && t in w[g];
      assert g in q.waiting && t in q.waiting[g];
    }
  }

  lemma HeadFacts(q: Queues, h: nat)
    requires Inv(q) && h in q.waiting
    ensures h in q.added && h in q.woken && q.added[h] == q.woken[h] + q.waiting[h] && Distinct(q.added[h])
    ensures q.waiting[h] == [] ==> q.woken[h] == q.added[h]
    ensures h !in q.draining ==> q.added[h] == q.waiting[h]
  {
    assert HeadInv(q, h);
  }

  lemma WalkFacts(next: map<nat, Link>, heads: map<nat, Head>, cursors: map<nat, Link>, q: Queues, h: nat)
    requires Linked(next, heads, cursors, q) && h in q.waiting && h in q.draining
    ensures h in cursors && (cursors[h] == Tail <==> q.waiting[h] == [])
  {
    assert HeadOk(next, heads[h], true, cursors[h], q.waiting[h]);
  }

  lemma InitLinked(next: map<nat, Link>, heads: map<nat, Head>, cursors: map<nat, Link>, q: Queues, h: nat)
    requires Linked(next, heads, cursors, q) && Enabled(q, Init(h))
    ensures Linked(next, heads[h := Head(Tail, None)], cursors, Next(q, Init(h)))
  {
    hide Queued, Spells;
    var q' := Next(q, Init(h));
    forall x: nat ensures Queued(q'.waiting, x) <==> Queued(q.waiting, x) {
      QueuedAfterInit(q, h, x);
    }
    assert Spells(next, Tail, []) by {
      SpellsNothing(next);
    }
  }

  lemma SpellsNothing(next: map<nat, Link>)
    ensures Spells(next, Tail, [])
  {
  }

  lemma QueuedAfterInit(q: Queues, h: nat, x: nat)
    requires Enabled(q, Init(h))
    ensures Queued(Next(q, Init(h)).waiting, x) <==> Queued(q.waiting, x)
  {
    var w, w' := q.waiting, Next(q, Init(h)).waiting;
    if Queued(w, x) {
      var g :| g in w && x in w[g];
      assert g in w' && x in w'[g];
    }
  }

  lemma BeginLinked(next: map<nat, Link>, heads: map<nat, Head>, cursors: map<nat, Link>, q: Queues, h: nat)
    requires Linked(next, heads, cursors, q) && Enabled(q, Begin(h))
    ensures Linked(next, heads, cursors[h := heads[h].first], Next(q, Begin(h)))
  {
  }

  /** Linking does not depend on reference counts. */
  lemma LinkedRefs(next: map<nat, Link>, heads: map<nat, Head>, cursors: map<nat, Link>, q: Queues, q': Queues)
    requires Linked(next, heads, cursors, q) && q'.waiting == q.waiting && q'.draining == q.draining
    ensures Linked(next, heads, cursors, q')
  {
  }
}
