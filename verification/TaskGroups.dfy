/**
  Task-group hierarchies and `walk_tg_tree_from`: the goto-driven walk makes exactly the
  calls of the recursive depth-first traversal, up to the first non-zero result.
 */
module TaskGroups {
  import opened Basics

  /** Groups are numbers; `children` lists them in sibling order, `parent` is undefined at the root. */
  datatype Hierarchy = Hierarchy(root: nat, parent: map<nat, nat>, children: map<nat, seq<nat>>)

  ghost predicate ChildAt(h: Hierarchy, rank: map<nat, nat>, g: nat, i: nat)
    requires g in h.children && g in rank && i < |h.children[g]|
  {
    var c := h.children[g][i];
    c in h.children && c in rank && c in h.parent && h.parent[c] == g && rank[c] < rank[g]
  }

  /** A finite tree: parent and children links agree, siblings differ, and `rank` falls going down. */
  ghost predicate Tree(h: Hierarchy, rank: map<nat, nat>) {
    && h.root in h.children && h.root in rank && h.root !in h.parent
    && (forall g | g in h.children :: g in rank && rank[g] <= rank[h.root])
    && (forall g, i | g in h.children && 0 <= i < |h.children[g]| :: ChildAt(h, rank, g, i))
    && (forall g, i, j | g in h.children && 0 <= i < j < |h.children[g]| :: h.children[g][i] != h.children[g][j])
    && (forall g | g in h.children && g != h.root ::
          g in h.parent && h.parent[g] in h.children && g in h.children[h.parent[g]])
  }

  datatype Event = Down(group: nat) | Up(group: nat)

  /** The recursive traversal of the subtree of `g`: down in pre-order, up in post-order. */
  ghost function Order(h: Hierarchy, rank: map<nat, nat>, g: nat): seq<Event>
    requires Tree(h, rank) && g in h.children
    decreases rank[g], |h.children[g]| + 1
  {
    [Down(g)] + OrderFrom(h, rank, g, 0) + [Up(g)]
  }

  /** ... of the children of `g` from the `i`-th on. */
  ghost function OrderFrom(h: Hierarchy, rank: map<nat, nat>, g: nat, i: nat): seq<Event>
    requires Tree(h, rank) && g in h.children && i <= |h.children[g]|
    decreases rank[g], |h.children[g]| - i
  {
    if i == |h.children[g]| then []
    else
      assert ChildAt(h, rank, g, i);
      Order(h, rank, h.children[g][i]) + OrderFrom(h, rank, g, i + 1)
  }

  /** A visitor maps the data and a group to new data and a return value. */
  type Visitor<!S> = (S, nat) -> (S, int)

  datatype Walked<S> = Walked(data: S, ret: int, events: seq<Event>)

  function Call<S>(e: Event, down: Visitor<S>, up: Visitor<S>, data: S): (S, int) {
    match e
    case Down(g) => down(data, g)
    case Up(g) => up(data, g)
  }

  /** Make the calls of `es` in order, stopping after the first non-zero result. */
  ghost function Calls<S>(es: seq<Event>, down: Visitor<S>, up: Visitor<S>, data: S): Walked<S>
    decreases |es|
  {
    if es == [] then Walked(data, 0, [])
    else
      var (data', ret) := Call(es[0], down, up, data);
      if ret != 0 then Walked(data', ret, [es[0]])
      else
        var rest := Calls(es[1..], down, up, data');
        Walked(rest.data, rest.ret, [es[0]] + rest.events)
  }

  lemma {:induction false} CallsConcat<S>(a: seq<Event>, b: seq<Event>, down: Visitor<S>, up: Visitor<S>, data: S)
    ensures var w := Calls(a, down, up, data);
      Calls(a + b, down, up, data)
      == if w.ret != 0 then w
         else var rest := Calls(b, down, up, w.data); Walked(rest.data, rest.ret, w.events + rest.events)
    ensures var w := Calls(a, down, up, data); w.events <= a && (w.ret == 0 ==> w.events == a)
    decreases |a|
  {
    if a == [] {
      assert a + b == b;
    } else {
      var (data', ret) := Call(a[0], down, up, data);
      assert (a + b)[1..] == a[1..] + b;
      CallsConcat(a[1..], b, down, up, data');
      var w := Calls(a[1..], down, up, data');
      var rest := Calls(b, down, up, w.data);
      assert [a[0]] + (w.events + rest.events) == [a[0]] + w.events + rest.events;
      assert a == [a[0]] + a[1..];
    }
  }

  /** `d` are the data before, between and after the calls of `es`, and `r` their results. */
  ghost predicate CallAt<S(!new)>(es: seq<Event>, down: Visitor<S>, up: Visitor<S>, d: seq<S>, r: seq<int>, i: nat)
    requires i < |es| == |r| < |d|
  {
    (d[i + 1], r[i]) == if es[i].Down? then down(d[i], es[i].group) else up(d[i], es[i].group)
  }

  ghost predicate Trace<S(!new)>(es: seq<Event>, down: Visitor<S>, up: Visitor<S>, d: seq<S>, r: seq<int>) {
    && |d| == |es| + 1 && |r| == |es|
    && (forall i | 0 <= i < |es| :: CallAt(es, down, up, d, r, i))
    && (forall i | 0 <= i < |es| - 1 :: r[i] == 0)
  }

  /**
    What making the calls of `order` up to the first non-zero result comes to: each takes the data that the
    one before it left, all but the last returned zero, the last result is the answer, and none is left
    out unless that is not zero.
   */
  ghost predicate InTurn<S(!new)>(order: seq<Event>, down: Visitor<S>, up: Visitor<S>, data: S, w: Walked<S>) {
    && w.events <= order && (w.ret == 0 ==> w.events == order)
    && exists d, r :: Trace(w.events, down, up, d, r) && d[0] == data && d[|w.events|] == w.data
         && w.ret == if r == [] then 0 else r[|r| - 1]
  }

  lemma TraceFirst<S(!new)>(e: Event, es: seq<Event>, down: Visitor<S>, up: Visitor<S>, data: S, d: seq<S>, r: seq<int>)
    requires Trace(es, down, up, d, r) && d[0] == Call(e, down, up, data).0 && Call(e, down, up, data).1 == 0
    ensures Trace([e] + es, down, up, [data] + d, [0] + r)
  {
    var es', d', r' := [e] + es, [data] + d, [0] + r;
    forall i | 0 <= i < |es'| ensures CallAt(es', down, up, d', r', i) {
      if i > 0 {
        assert CallAt(es, down, up, d, r, i - 1);
      }
    }
  }

  lemma NoTrace<S(!new)>(down: Visitor<S>, up: Visitor<S>, data: S)
    ensures Trace([], down, up, [data], [])
  {
  }

  lemma OneCall<S(!new)>(e: Event, down: Visitor<S>, up: Visitor<S>, data: S)
    ensures var (s, ret) := Call(e, down, up, data); Trace([e], down, up, [data, s], [ret])
  {
  }

  lemma {:induction false} CallsAreInTurn<S(!new)>(es: seq<Event>, down: Visitor<S>, up: Visitor<S>, data: S)
    ensures InTurn(es, down, up, data, Calls(es, down, up, data))
    decreases |es|
  {
    hide CallAt;
    var w := Calls(es, down, up, data);
    if es == [] {
      NoTrace(down, up, data);
      assert [data][0] == data;
    } else {
      var (s, ret) := Call(es[0], down, up, data);
      if ret != 0 {
        OneCall(es[0], down, up, data);
        assert [data, s][0] == data && [data, s][1] == s;
      } else {
        CallsAreInTurn(es[1..], down, up, s);
        var v := Calls(es[1..], down, up, s);
        var d, r :| Trace(v.events, down, up, d, r) && d[0] == s && d[|v.events|] == v.data
          && v.ret == if r == [] then 0 else r[|r| - 1];
        TraceFirst(es[0], v.events, down, up, data, d, r);
        assert es == [es[0]] + es[1..];
      }
    }
  }

  /** One more call, `rest[0]`, when the calls made so far all returned zero. */
  lemma NextCall<S>(order: seq<Event>, made: seq<Event>, rest: seq<Event>, down: Visitor<S>, up: Visitor<S>, data: S, s: S)
    requires order == made + rest && rest != []
    requires Calls(made, down, up, data) == Walked(s, 0, made)
    ensures var (s', ret) := Call(rest[0], down, up, s);
      && order == (made + [rest[0]]) + rest[1..]
      && Calls(made + [rest[0]], down, up, data) == Walked(s', ret, made + [rest[0]])
      && (ret != 0 || rest[1..] == [] ==> Calls(order, down, up, data) == Walked(s', ret, made + [rest[0]]))
  {
    var (s', ret) := Call(rest[0], down, up, s);
    CallsConcat(made, [rest[0]], down, up, data);
    assert [rest[0]][1..] == [];
    assert order == (made + [rest[0]]) + rest[1..];
    if ret != 0 {
      CallsConcat(made + [rest[0]], rest[1..], down, up, data);
    } else if rest[1..] == [] {
      assert order == made + [rest[0]];
    }
  }

  /** Position of a group among its siblings. */
  function IndexOf(s: seq<nat>, x: nat): (i: nat)
    requires x in s
    ensures i < |s| && s[i] == x
  {
    if s[0] == x then 0 else 1 + IndexOf(s[1..], x)
  }

  // ----- the subtree -----

  ghost function Subtree(h: Hierarchy, rank: map<nat, nat>, g: nat): set<nat>
    requires Tree(h, rank) && g in h.children
    decreases rank[g], |h.children[g]| + 1
  {
    {g} + SubtreeFrom(h, rank, g, 0)
  }

  ghost function SubtreeFrom(h: Hierarchy, rank: map<nat, nat>, g: nat, i: nat): set<nat>
    requires Tree(h, rank) && g in h.children && i <= |h.children[g]|
    decreases rank[g], |h.children[g]| - i
  {
    if i == |h.children[g]| then {}
    else
      assert ChildAt(h, rank, g, i);
      Subtree(h, rank, h.children[g][i]) + SubtreeFrom(h, rank, g, i + 1)
  }

  ghost predicate EventsIn(es: seq<Event>, groups: set<nat>) {
    && (forall e | e in es :: e.group in groups)
    && (forall g | g in groups :: Down(g) in es && Up(g) in es)
  }

  lemma EventsInConcat(a: seq<Event>, x: set<nat>, b: seq<Event>, y: set<nat>)
    requires EventsIn(a, x) && EventsIn(b, y)
    ensures EventsIn(a + b, x + y)
  {
  }

  /** The walk makes both calls on every group of the subtree and none on any other group. */
  lemma {:induction false} OrderCoversSubtree(h: Hierarchy, rank: map<nat, nat>, g: nat)
    requires Tree(h, rank) && g in h.children
    ensures EventsIn(Order(h, rank, g), Subtree(h, rank, g))
    decreases rank[g], |h.children[g]| + 1
  {
    OrderFromCovers(h, rank, g, 0);
    var inner := OrderFrom(h, rank, g, 0);
    assert Order(h, rank, g) == [Down(g)] + inner + [Up(g)];
    Enclose(inner, SubtreeFrom(h, rank, g, 0), g);
  }

  lemma Enclose(inner: seq<Event>, groups: set<nat>, g: nat)
    requires EventsIn(inner, groups)
    ensures EventsIn([Down(g)] + inner + [Up(g)], {g} + groups)
  {
  }

  lemma {:induction false} OrderFromCovers(h: Hierarchy, rank: map<nat, nat>, g: nat, i: nat)
    requires Tree(h, rank) && g in h.children && i <= |h.children[g]|
    ensures EventsIn(OrderFrom(h, rank, g, i), SubtreeFrom(h, rank, g, i))
    decreases rank[g], |h.children[g]| - i
  {
    if i < |h.children[g]| {
      var c := h.children[g][i];
      assert ChildAt(h, rank, g, i);
      OrderCoversSubtree(h, rank, c);
      OrderFromCovers(h, rank, g, i + 1);
      EventsInConcat(Order(h, rank, c), Subtree(h, rank, c), OrderFrom(h, rank, g, i + 1), SubtreeFrom(h, rank, g, i + 1));
    }
  }

  // ----- each call once, and nested -----

  lemma {:induction false} SubtreeBelow(h: Hierarchy, rank: map<nat, nat>, g: nat, m: nat)
    requires Tree(h, rank) && g in h.children && m in Subtree(h, rank, g)
    ensures m in h.children && rank[m] <= rank[g]
    ensures m != g ==> m in h.parent && h.parent[m] in h.children && h.parent[m] in Subtree(h, rank, g)
    decreases rank[g], |h.children[g]| + 1
  {
    if m != g {
      SubtreeFromBelow(h, rank, g, 0, m);
    }
  }

  lemma {:induction false} SubtreeFromBelow(h: Hierarchy, rank: map<nat, nat>, g: nat, i: nat, m: nat)
    requires Tree(h, rank) && g in h.children && i <= |h.children[g]| && m in SubtreeFrom(h, rank, g, i)
    ensures m in h.children && rank[m] < rank[g]
    ensures m in h.parent && h.parent[m] in h.children && (h.parent[m] == g || h.parent[m] in SubtreeFrom(h, rank, g, i))
    decreases rank[g], |h.children[g]| - i
  {
    assert ChildAt(h, rank, g, i);
    if m in Subtree(h, rank, h.children[g][i]) {
      SubtreeBelow(h, rank, h.children[g][i], m);
    } else {
      SubtreeFromBelow(h, rank, g, i + 1, m);
    }
  }

  lemma Rises(h: Hierarchy, rank: map<nat, nat>, g: nat)
    requires Tree(h, rank) && g in h.children && g != h.root
    ensures g in h.parent && h.parent[g] in h.children && rank[g] < rank[h.parent[g]]
  {
    var p := h.parent[g];
    assert ChildAt(h, rank, p, IndexOf(h.children[p], g));
  }

  lemma {:induction false} ChildrenBelow(h: Hierarchy, rank: map<nat, nat>, g: nat, i: nat, j: nat)
    requires Tree(h, rank) && g in h.children && i <= j < |h.children[g]|
    ensures h.children[g][j] in SubtreeFrom(h, rank, g, i)
    decreases j - i
  {
    assert ChildAt(h, rank, g, i);
    if i < j {
      ChildrenBelow(h, rank, g, i + 1, j);
    }
  }

  lemma {:induction false} SubtreeClosed(h: Hierarchy, rank: map<nat, nat>, g: nat, m: nat, c: nat)
    requires Tree(h, rank) && g in h.children && m in Subtree(h, rank, g) && m in h.children && c in h.children[m]
    ensures c in Subtree(h, rank, g)
    decreases rank[g], |h.children[g]| + 1
  {
    if m == g {
      ChildrenBelow(h, rank, g, 0, IndexOf(h.children[g], c));
    } else {
      SubtreeFromClosed(h, rank, g, 0, m, c);
    }
  }

  lemma {:induction false} SubtreeFromClosed(h: Hierarchy, rank: map<nat, nat>, g: nat, i: nat, m: nat, c: nat)
    requires Tree(h, rank) && g in h.children && i <= |h.children[g]|
    requires m in SubtreeFrom(h, rank, g, i) && m in h.children && c in h.children[m]
    ensures c in SubtreeFrom(h, rank, g, i)
    decreases rank[g], |h.children[g]| - i
  {
    assert ChildAt(h, rank, g, i);
    if m in Subtree(h, rank, h.children[g][i]) {
      SubtreeClosed(h, rank, h.children[g][i], m, c);
    } else {
      SubtreeFromClosed(h, rank, g, i + 1, m, c);
    }
  }

  lemma {:induction false} AllBelowRoot(h: Hierarchy, rank: map<nat, nat>, g: nat)
    requires Tree(h, rank) && g in h.children
    ensures g in Subtree(h, rank, h.root)
    decreases rank[h.root] - rank[g]
  {
    if g != h.root {
      Rises(h, rank, g);
      AllBelowRoot(h, rank, h.parent[g]);
      SubtreeClosed(h, rank, h.root, h.parent[g], g);
    }
  }

  /** The subtrees of two children are disjoint: climbing from a common group would meet both children. */
  lemma {:induction false} SiblingsDisjoint(h: Hierarchy, rank: map<nat, nat>, g: nat, i: nat, j: nat, m: nat)
    requires Tree(h, rank) && g in h.children && i < j < |h.children[g]|
    requires h.children[g][i] in h.children && h.children[g][j] in h.children
    requires m in h.children && m in Subtree(h, rank, h.children[g][i])
    ensures m !in Subtree(h, rank, h.children[g][j])
    decreases rank[h.root] - rank[m]
  {
    var c, d := h.children[g][i], h.children[g][j];
    assert ChildAt(h, rank, g, i) && ChildAt(h, rank, g, j) && c != d;
    if m in Subtree(h, rank, d) {
      SubtreeBelow(h, rank, c, m);
      SubtreeBelow(h, rank, d, m);
      if m == c {
        SubtreeBelow(h, rank, d, g);
      } else if m == d {
        SubtreeBelow(h, rank, c, g);
      } else {
        var p := h.parent[m];
        assert ChildAt(h, rank, p, IndexOf(h.children[p], m));
        SubtreeBelow(h, rank, c, p);
        SiblingsDisjoint(h, rank, g, i, j, p);
      }
    }
  }

  lemma {:induction false} LaterSiblingsDisjoint(h: Hierarchy, rank: map<nat, nat>, g: nat, i: nat, j: nat)
    requires Tree(h, rank) && g in h.children && i < j <= |h.children[g]| && h.children[g][i] in h.children
    ensures Subtree(h, rank, h.children[g][i]) !! SubtreeFrom(h, rank, g, j)
    decreases |h.children[g]| - j
  {
    if j < |h.children[g]| {
      assert ChildAt(h, rank, g, j);
      forall m | m in Subtree(h, rank, h.children[g][i]) ensures m !in Subtree(h, rank, h.children[g][j]) {
        SubtreeBelow(h, rank, h.children[g][i], m);
        SiblingsDisjoint(h, rank, g, i, j, m);
      }
      LaterSiblingsDisjoint(h, rank, g, i, j + 1);
    }
  }

  lemma DistinctConcat(a: seq<Event>, x: set<nat>, b: seq<Event>, y: set<nat>)
    requires Distinct(a) && Distinct(b) && EventsIn(a, x) && EventsIn(b, y) && x !! y
    ensures Distinct(a + b)
  {
    forall i, j | 0 <= i < |a| && 0 <= j < |b| ensures a[i] != b[j] {
      assert a[i] in a && b[j] in b;
    }
  }

  lemma DistinctEnclose(inner: seq<Event>, groups: set<nat>, g: nat)
    requires Distinct(inner) && EventsIn(inner, groups) && g !in groups
    ensures Distinct([Down(g)] + inner + [Up(g)])
  {
    forall i | 0 <= i < |inner| ensures inner[i].group != g {
      assert inner[i] in inner;
    }
  }

  /** The walk makes no call twice. */
  lemma {:induction false} CallsOnce(h: Hierarchy, rank: map<nat, nat>, g: nat)
    requires Tree(h, rank) && g in h.children
    ensures Distinct(Order(h, rank, g))
    decreases rank[g], |h.children[g]| + 1
  {
    CallsFromOnce(h, rank, g, 0);
    OrderFromCovers(h, rank, g, 0);
    if g in SubtreeFrom(h, rank, g, 0) {
      SubtreeFromBelow(h, rank, g, 0, g);
    }
    DistinctEnclose(OrderFrom(h, rank, g, 0), SubtreeFrom(h, rank, g, 0), g);
  }

  lemma {:induction false} CallsFromOnce(h: Hierarchy, rank: map<nat, nat>, g: nat, i: nat)
    requires Tree(h, rank) && g in h.children && i <= |h.children[g]|
    ensures Distinct(OrderFrom(h, rank, g, i))
    decreases rank[g], |h.children[g]| - i
  {
    if i < |h.children[g]| {
      var c := h.children[g][i];
      assert ChildAt(h, rank, g, i);
      CallsOnce(h, rank, c);
      CallsFromOnce(h, rank, g, i + 1);
      OrderCoversSubtree(h, rank, c);
      OrderFromCovers(h, rank, g, i + 1);
      LaterSiblingsDisjoint(h, rank, g, i, i + 1);
      DistinctConcat(Order(h, rank, c), Subtree(h, rank, c), OrderFrom(h, rank, g, i + 1), SubtreeFrom(h, rank, g, i + 1));
    }
  }

  /**
    All calls of the subtree of `m` are made together, from Down(m) to Up(m); as no call is made
    twice, every group is entered before and left after everything below it.
   */
  lemma {:induction false} CallsNest(h: Hierarchy, rank: map<nat, nat>, g: nat, m: nat) returns (before: seq<Event>, after: seq<Event>)
    requires Tree(h, rank) && g in h.children && m in h.children && m in Subtree(h, rank, g)
    ensures Order(h, rank, g) == before + Order(h, rank, m) + after
    decreases rank[g], |h.children[g]| + 1
  {
    if m == g {
      before, after := [], [];
    } else {
      before, after := CallsNestFrom(h, rank, g, 0, m);
      before, after := [Down(g)] + before, after + [Up(g)];
    }
  }

  lemma {:induction false} CallsNestFrom(h: Hierarchy, rank: map<nat, nat>, g: nat, i: nat, m: nat) returns (before: seq<Event>, after: seq<Event>)
    requires Tree(h, rank) && g in h.children && i <= |h.children[g]| && m in h.children && m in SubtreeFrom(h, rank, g, i)
    ensures OrderFrom(h, rank, g, i) == before + Order(h, rank, m) + after
    decreases rank[g], |h.children[g]| - i
  {
    assert ChildAt(h, rank, g, i);
    var c := h.children[g][i];
    if m in Subtree(h, rank, c) {
      before, after := CallsNest(h, rank, c, m);
      after := after + OrderFrom(h, rank, g, i + 1);
    } else {
      before, after := CallsNestFrom(h, rank, g, i + 1, m);
      before := Order(h, rank, c) + before;
    }
  }

  // ----- the order of the calls -----

  ghost predicate Precedes(es: seq<Event>, e: Event, f: Event) {
    exists a, b :: 0 <= a < b < |es| && es[a] == e && es[b] == f
  }

  lemma PrecedesAcross(x: seq<Event>, y: seq<Event>, e: Event, f: Event)
    requires e in x && f in y
    ensures Precedes(x + y, e, f)
  {
    var a :| 0 <= a < |x| && x[a] == e;
    var b :| 0 <= b < |y| && y[b] == f;
    assert (x + y)[a] == e && (x + y)[|x| + b] == f;
  }

  lemma PrecedesWithin(before: seq<Event>, mid: seq<Event>, after: seq<Event>, e: Event, f: Event)
    requires Precedes(mid, e, f)
    ensures Precedes(before + mid + after, e, f)
  {
    var a, b :| 0 <= a < b < |mid| && mid[a] == e && mid[b] == f;
    var es := before + mid + after;
    assert es[|before| + a] == e && es[|before| + b] == f;
  }

  /** A group is entered before its children, and left after them. */
  lemma EncloseChild(h: Hierarchy, rank: map<nat, nat>, g: nat, m: nat, i: nat)
    requires Tree(h, rank) && g in h.children && m in h.children && m in Subtree(h, rank, g) && i < |h.children[m]|
    ensures var c := h.children[m][i]; var order := Order(h, rank, g);
      Precedes(order, Down(m), Down(c)) && Precedes(order, Down(c), Up(c)) && Precedes(order, Up(c), Up(m))
  {
    assert ChildAt(h, rank, m, i);
    var c, inner := h.children[m][i], OrderFrom(h, rank, m, 0);
    hide Subtree, OrderFrom;
    OrderFromCovers(h, rank, m, 0);
    ChildrenBelow(h, rank, m, 0, i);
    var before, after := CallsNest(h, rank, g, m);
    PrecedesAcross([Down(m)], inner + [Up(m)], Down(m), Down(c));
    PrecedesAcross([Down(m)] + inner, [Up(m)], Up(c), Up(m));
    assert [Down(m)] + inner + [Up(m)] == [Down(m)] + (inner + [Up(m)]);
    PrecedesWithin(before, Order(h, rank, m), after, Down(m), Down(c));
    PrecedesWithin(before, Order(h, rank, m), after, Up(c), Up(m));
    SubtreeClosed(h, rank, g, m, c);
    before, after := CallsNest(h, rank, g, c);
    PrecedesAcross([Down(c)] + OrderFrom(h, rank, c, 0), [Up(c)], Down(c), Up(c));
    PrecedesWithin(before, Order(h, rank, c), after, Down(c), Up(c));
  }

  lemma {:induction false} ChildBeforeLater(h: Hierarchy, rank: map<nat, nat>, m: nat, k: nat, i: nat, j: nat)
    requires Tree(h, rank) && m in h.children && k <= i < j < |h.children[m]|
    ensures Precedes(OrderFrom(h, rank, m, k), Up(h.children[m][i]), Down(h.children[m][j]))
    decreases i - k
  {
    assert ChildAt(h, rank, m, k);
    var c := h.children[m][k];
    hide Subtree;
    if k < i {
      ChildBeforeLater(h, rank, m, k + 1, i, j);
      var later := OrderFrom(h, rank, m, k + 1);
      PrecedesWithin(Order(h, rank, c), later, [], Up(h.children[m][i]), Down(h.children[m][j]));
      assert OrderFrom(h, rank, m, k) == Order(h, rank, c) + later + [];
    } else {
      OrderFromCovers(h, rank, m, k + 1);
      ChildrenBelow(h, rank, m, k + 1, j);
      PrecedesAcross(Order(h, rank, c), OrderFrom(h, rank, m, k + 1), Up(c), Down(h.children[m][j]));
    }
  }

  /** The subtree of a group is left before the next sibling is entered. */
  lemma SiblingsInTurn(h: Hierarchy, rank: map<nat, nat>, g: nat, m: nat, i: nat, j: nat)
    requires Tree(h, rank) && g in h.children && m in h.children && m in Subtree(h, rank, g) && i < j < |h.children[m]|
    ensures Precedes(Order(h, rank, g), Up(h.children[m][i]), Down(h.children[m][j]))
  {
    hide Subtree, OrderFrom;
    ChildBeforeLater(h, rank, m, 0, i, j);
    var before, after := CallsNest(h, rank, g, m);
    var e, f := Up(h.children[m][i]), Down(h.children[m][j]);
    PrecedesWithin([Down(m)], OrderFrom(h, rank, m, 0), [Up(m)], e, f);
    PrecedesWithin(before, Order(h, rank, m), after, e, f);
  }

  // ----- the goto walk -----

  /** A path down from where the walk started to the group it is at. */
  ghost predicate IsPath(h: Hierarchy, path: seq<nat>) {
    && path != []
    && (forall j | 0 <= j < |path| :: path[j] in h.children)
    && (forall j | 0 < j < |path| :: path[j] in h.children[path[j - 1]])
  }

  /** What is left to call once the subtree of the last group of the path is done. */
  ghost function After(h: Hierarchy, rank: map<nat, nat>, path: seq<nat>): seq<Event>
    requires Tree(h, rank) && IsPath(h, path)
    decreases |path|
  {
    if |path| == 1 then []
    else
      var outer, g := path[..|path| - 1], path[|path| - 2];
      OrderFrom(h, rank, g, IndexOf(h.children[g], path[|path| - 1]) + 1) + [Up(g)] + After(h, rank, outer)
  }

  lemma AfterChild(h: Hierarchy, rank: map<nat, nat>, path: seq<nat>, i: nat)
    requires Tree(h, rank) && IsPath(h, path) && i < |h.children[path[|path| - 1]]|
    ensures var g := path[|path| - 1]; var c := h.children[g][i];
      && IsPath(h, path + [c])
      && IndexOf(h.children[g], c) == i
      && After(h, rank, path + [c]) == OrderFrom(h, rank, g, i + 1) + [Up(g)] + After(h, rank, path)
  {
    var g := path[|path| - 1];
    assert ChildAt(h, rank, g, i);
    var c := h.children[g][i];
    assert IndexOf(h.children[g], c) == i;
    hide ChildAt, OrderFrom, IndexOf;
    assert (path + [c])[..|path|] == path;
  }

  /** Going down never comes back to where it started. */
  lemma {:induction false} PathFalls(h: Hierarchy, rank: map<nat, nat>, path: seq<nat>)
    requires Tree(h, rank) && IsPath(h, path)
    ensures |path| > 1 ==> rank[path[|path| - 1]] < rank[path[0]]
    decreases |path|
  {
    if |path| > 1 {
      PathFalls(h, rank, path[..|path| - 1]);
      var g, c := path[|path| - 2], path[|path| - 1];
      assert ChildAt(h, rank, g, IndexOf(h.children[g], c));
    }
  }

  /** `rest` is what the walk has still to call when it enters, or is at child `next` of, the end of `path`. */
  ghost predicate Left(h: Hierarchy, rank: map<nat, nat>, path: seq<nat>, entering: bool, next: nat, rest: seq<Event>)
    requires Tree(h, rank)
  {
    && IsPath(h, path)
    && var g := path[|path| - 1];
       if entering then rest == Order(h, rank, g) + After(h, rank, path)
       else next <= |h.children[g]| && rest == OrderFrom(h, rank, g, next) + [Up(g)] + After(h, rank, path)
  }

  lemma LeftAfterDown(h: Hierarchy, rank: map<nat, nat>, path: seq<nat>, next: nat, rest: seq<Event>)
    requires Tree(h, rank) && Left(h, rank, path, true, next, rest)
    ensures rest != [] && rest[0] == Down(path[|path| - 1])
    ensures Left(h, rank, path, false, 0, rest[1..])
  {
    var g := path[|path| - 1];
    assert rest == [Down(g)] + (OrderFrom(h, rank, g, 0) + [Up(g)] + After(h, rank, path));
  }

  lemma LeftAtChild(h: Hierarchy, rank: map<nat, nat>, path: seq<nat>, next: nat, rest: seq<Event>)
    requires Tree(h, rank) && Left(h, rank, path, false, next, rest) && next < |h.children[path[|path| - 1]]|
    ensures Left(h, rank, path + [h.children[path[|path| - 1]][next]], true, next, rest)
  {
    var g := path[|path| - 1];
    var c := h.children[g][next];
    AfterChild(h, rank, path, next);
    assert ChildAt(h, rank, g, next);
    assert OrderFrom(h, rank, g, next) == Order(h, rank, c) + OrderFrom(h, rank, g, next + 1);
    assert rest == Order(h, rank, c) + (OrderFrom(h, rank, g, next + 1) + [Up(g)] + After(h, rank, path));
  }

  lemma LeftAfterUp(h: Hierarchy, rank: map<nat, nat>, path: seq<nat>, next: nat, rest: seq<Event>)
    requires Tree(h, rank) && Left(h, rank, path, false, next, rest) && next == |h.children[path[|path| - 1]]|
    ensures rest != [] && rest[0] == Up(path[|path| - 1])
    ensures |path| == 1 ==> rest[1..] == []
    ensures |path| > 1 ==> var g, c := path[|path| - 2], path[|path| - 1];
      && c != path[0]
      && c in h.parent && h.parent[c] == g && c in h.children[g]
      && Left(h, rank, path[..|path| - 1], false, IndexOf(h.children[g], c) + 1, rest[1..])
  {
    assert OrderFrom(h, rank, path[|path| - 1], next) == [];
    assert rest[1..] == After(h, rank, path);
    if |path| > 1 {
      var g, c := path[|path| - 2], path[|path| - 1];
      PathFalls(h, rank, path);
      assert ChildAt(h, rank, g, IndexOf(h.children[g], c));
      assert IsPath(h, path[..|path| - 1]);
    }
  }

  lemma NoCalls<S>(down: Visitor<S>, up: Visitor<S>, data: S)
    ensures Calls([], down, up, data) == Walked(data, 0, [])
  {
  }

  lemma LeftAtStart(h: Hierarchy, rank: map<nat, nat>, from: nat)
    requires Tree(h, rank) && from in h.children
    ensures Left(h, rank, [from], true, 0, Order(h, rank, from))
  {
    assert Order(h, rank, from) + [] == Order(h, rank, from);
  }

  lemma LeftOnPath(h: Hierarchy, rank: map<nat, nat>, path: seq<nat>, entering: bool, next: nat, rest: seq<Event>)
    requires Tree(h, rank) && Left(h, rank, path, entering, next, rest)
    ensures IsPath(h, path)
    ensures entering || next <= |h.children[path[|path| - 1]]|
  {
  }

  /** The walk of the kernel: gotos as the flag `entering`, the list cursor as the index `next`. */
  method WalkTgTreeFrom<S(!new)>(h: Hierarchy, ghost rank: map<nat, nat>, from: nat, down: Visitor<S>, up: Visitor<S>, data: S)
    returns (ret: int, s: S, ghost events: seq<Event>)
    requires Tree(h, rank) && from in h.children
    ensures s == Calls(Order(h, rank, from), down, up, data).data
    ensures ret == Calls(Order(h, rank, from), down, up, data).ret
    ensures events == Calls(Order(h, rank, from), down, up, data).events
    ensures InTurn(Order(h, rank, from), down, up, data, Walked(s, ret, events))
  {
    hide InTurn, Tree, Order, OrderFrom, After, Calls, Left;
    LeftAtStart(h, rank, from);
    NoCalls(down, up, data);
    var parent, child := from, from;
    var entering, next: nat := true, 0;
    ghost var path := [from];
    ghost var order := Order(h, rank, from);
    ghost var rest := order;
    s, events, ret := data, [], 0;
    CallsAreInTurn(order, down, up, data);
    while true
      invariant Left(h, rank, path, entering, next, rest)
      invariant path != [] && path[0] == from && path[|path| - 1] == parent
      invariant Calls(events, down, up, data) == Walked(s, 0, events)
      invariant order == events + rest
      decreases |rest|, if entering then 0 else 1
    {
      LeftOnPath(h, rank, path, entering, next, rest);
      if entering {
        LeftAfterDown(h, rank, path, next, rest);
        NextCall(order, events, rest, down, up, data, s);
        var (s', r) := down(s, parent);
        s, ret := s', r;
        events, rest := events + [Down(parent)], rest[1..];
        if ret != 0 {
          break;
        }
        next, entering := 0, false;
      } else if next < |h.children[parent]| {
        LeftAtChild(h, rank, path, next, rest);
        child := h.children[parent][next];
        parent := child;
        path := path + [child];
        entering := true;
      } else {
        LeftAfterUp(h, rank, path, next, rest);
        NextCall(order, events, rest, down, up, data, s);
        var (s', r) := up(s, parent);
        s, ret := s', r;
        events, rest := events + [Up(parent)], rest[1..];
        if ret != 0 || parent == from {
          break;
        }
        child := parent;
        parent := h.parent[parent];
        path := path[..|path| - 1];
        next := IndexOf(h.children[parent], child) + 1;
      }
    }
  }
}
