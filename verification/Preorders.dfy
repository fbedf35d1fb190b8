/**
  Every finite tree of groups has the pre-order numbering that the recomputation of effective clamps
  walks over: the order in which the recursive traversal enters the groups.
 */
module Preorders {
  import opened Basics
  import opened TaskGroups
  import opened Uclamp
  import E = EffectiveClamps

  /** The groups entered by `es`, in order. */
  ghost function Entered(es: seq<Event>): seq<nat> {
    if es == [] then [] else Enters(es[0]) + Entered(es[1..])
  }

  function Enters(e: Event): seq<nat> {
    if e.Down? then [e.group] else []
  }

  lemma {:induction false} EnteredConcat(a: seq<Event>, b: seq<Event>)
    ensures Entered(a + b) == Entered(a) + Entered(b)
    decreases |a|
  {
    if a == [] {
      assert a + b == b;
    } else {
      assert (a + b)[1..] == a[1..] + b;
      EnteredConcat(a[1..], b);
      hide Enters;
      var x, y, z := Enters(a[0]), Entered(a[1..]), Entered(b);
      assert x + (y + z) == (x + y) + z;
      assert Entered(a + b) == x + Entered((a + b)[1..]);
    }
  }

  lemma {:induction false} EnteredMembers(es: seq<Event>, g: nat)
    ensures g in Entered(es) <==> Down(g) in es
    decreases |es|
  {
    if es != [] {
      assert es == [es[0]] + es[1..];
      EnteredMembers(es[1..], g);
    }
  }

  lemma {:induction false} EnteredOnce(es: seq<Event>)
    requires Distinct(es)
    ensures Distinct(Entered(es))
    decreases |es|
  {
    if es != [] {
      assert es == [es[0]] + es[1..];
      EnteredOnce(es[1..]);
      if es[0].Down? {
        EnteredMembers(es[1..], es[0].group);
        OnceWithHead(es[0].group, Entered(es[1..]));
      }
    }
  }

  lemma OnceWithHead(g: nat, s: seq<nat>)
    requires Distinct(s) && g !in s
    ensures Distinct([g] + s)
  {
  }

  /** The subtree of `g` in pre-order. */
  ghost function Pre(h: Hierarchy, rank: map<nat, nat>, g: nat): seq<nat>
    requires Tree(h, rank) && g in h.children
  {
    Entered(Order(h, rank, g))
  }

  lemma PreMembers(h: Hierarchy, rank: map<nat, nat>, g: nat, x: nat)
    requires Tree(h, rank) && g in h.children
    ensures x in Pre(h, rank, g) <==> x in Subtree(h, rank, g)
  {
    OrderCoversSubtree(h, rank, g);
    hide Order, Tree;
    EnteredMembers(Order(h, rank, g), x);
  }

  lemma PreShape(h: Hierarchy, rank: map<nat, nat>, g: nat)
    requires Tree(h, rank) && g in h.children
    ensures Pre(h, rank, g) != [] && Pre(h, rank, g)[0] == g && Distinct(Pre(h, rank, g))
  {
    hide OrderFrom, Tree;
    CallsOnce(h, rank, g);
    EnteredOnce(Order(h, rank, g));
    assert Order(h, rank, g) == [Down(g)] + (OrderFrom(h, rank, g, 0) + [Up(g)]);
  }

  /** The groups of the whole tree, in pre-order. */
  ghost function Groups(h: Hierarchy, rank: map<nat, nat>): (l: seq<nat>)
    requires Tree(h, rank)
    ensures l != [] && l[0] == h.root && Distinct(l)
    ensures forall i | 0 <= i < |l| :: l[i] in h.children
    ensures forall g | g in h.children :: g in l
  {
    PreShape(h, rank, h.root);
    var l := Pre(h, rank, h.root);
    assert forall i | 0 <= i < |l| :: l[i] in h.children by {
      forall i | 0 <= i < |l| ensures l[i] in h.children {
        PreMembers(h, rank, h.root, l[i]);
        SubtreeBelow(h, rank, h.root, l[i]);
      }
    }
    assert forall g | g in h.children :: g in l by {
      forall g | g in h.children ensures g in l {
        AllBelowRoot(h, rank, g);
        PreMembers(h, rank, h.root, g);
      }
    }
    l
  }

  /** The position of a group. */
  ghost function At(h: Hierarchy, rank: map<nat, nat>, g: nat): (i: nat)
    requires Tree(h, rank) && g in h.children
    ensures i < |Groups(h, rank)| && Groups(h, rank)[i] == g
  {
    IndexOf(Groups(h, rank), g)
  }

  lemma AtIs(h: Hierarchy, rank: map<nat, nat>, i: nat)
    requires Tree(h, rank) && i < |Groups(h, rank)|
    ensures At(h, rank, Groups(h, rank)[i]) == i
  {
  }

  /** The subtree of a group is one block of the list, which starts with the group. */
  lemma BlockOf(h: Hierarchy, rank: map<nat, nat>, g: nat)
    requires Tree(h, rank) && g in h.children
    ensures var l, i, n := Groups(h, rank), At(h, rank, g), |Pre(h, rank, g)|;
      n >= 1 && i + n <= |l| && l[i..i + n] == Pre(h, rank, g)
  {
    assert h.root in h.children;
    hide Tree, Order, Entered;
    AllBelowRoot(h, rank, g);
    var before, after := CallsNest(h, rank, h.root, g);
    EnteredConcat(before + Order(h, rank, g), after);
    EnteredConcat(before, Order(h, rank, g));
    PreShape(h, rank, g);
    var l, a, p := Groups(h, rank), Entered(before), Pre(h, rank, g);
    assert l == a + p + Entered(after);
    assert l[|a|] == p[0] == g;
    assert At(h, rank, g) == |a|;
    assert l[|a|..|a| + |p|] == p;
  }

  /** ... so being in the subtree is being in the block. */
  lemma InBlock(h: Hierarchy, rank: map<nat, nat>, g: nat, x: nat)
    requires Tree(h, rank) && g in h.children && x in h.children
    ensures x in Subtree(h, rank, g) <==> At(h, rank, g) <= At(h, rank, x) < At(h, rank, g) + |Pre(h, rank, g)|
  {
    hide Tree, Pre, Subtree;
    BlockOf(h, rank, g);
    PreMembers(h, rank, g, x);
    var l, i, j, p := Groups(h, rank), At(h, rank, g), At(h, rank, x), Pre(h, rank, g);
    if x in p {
      var t :| 0 <= t < |p| && p[t] == x;
      assert l[i + t] == x;
    }
    if i <= j < i + |p| {
      assert l[i..i + |p|][j - i] == x;
    }
  }

  /** The numbering: parents by position, and the last position of every subtree. */
  ghost function PreorderOf(h: Hierarchy, rank: map<nat, nat>): (p: E.Preorder)
    requires Tree(h, rank)
    ensures |p.parent| == |p.last| == |Groups(h, rank)|
  {
    var l := Groups(h, rank);
    E.Preorder(
      seq(|l|, i requires 0 <= i < |l| => if i > 0 then ParentAt(h, rank, i) else -1),
      seq(|l|, i requires 0 <= i < |l| => LastAt(h, rank, i)))
  }

  ghost function ParentAt(h: Hierarchy, rank: map<nat, nat>, i: nat): (p: nat)
    requires Tree(h, rank) && 0 < i < |Groups(h, rank)|
    ensures var g := Groups(h, rank)[i]; g in h.parent && h.parent[g] in h.children && p == At(h, rank, h.parent[g])
  {
    var l := Groups(h, rank);
    assert l[i] != l[0];
    Rises(h, rank, l[i]);
    At(h, rank, h.parent[l[i]])
  }

  ghost function LastAt(h: Hierarchy, rank: map<nat, nat>, i: nat): nat
    requires Tree(h, rank) && i < |Groups(h, rank)|
  {
    var g := Groups(h, rank)[i];
    BlockOf(h, rank, g);
    i + |Pre(h, rank, g)| - 1
  }

  lemma LastInRange(h: Hierarchy, rank: map<nat, nat>, i: nat)
    requires Tree(h, rank) && i < |Groups(h, rank)|
    ensures i <= LastAt(h, rank, i) < |Groups(h, rank)|
  {
    hide Tree;
    AtIs(h, rank, i);
    BlockOf(h, rank, Groups(h, rank)[i]);
  }

  /** A parent comes first. */
  lemma ParentFirst(h: Hierarchy, rank: map<nat, nat>, j: nat)
    requires Tree(h, rank) && 0 < j < |Groups(h, rank)|
    ensures ParentAt(h, rank, j) < j
  {
    hide Tree, ParentAt, Pre, Subtree;
    var g := Groups(h, rank)[j];
    ParentFacts(h, rank, j);
    var p := h.parent[g];
    ChildInSubtree(h, rank, p, g);
    InBlock(h, rank, p, g);
    AtIs(h, rank, j);
  }

  lemma ParentFacts(h: Hierarchy, rank: map<nat, nat>, j: nat)
    requires Tree(h, rank) && 0 < j < |Groups(h, rank)|
    ensures var g := Groups(h, rank)[j];
      && g in h.children && g in h.parent && h.parent[g] in h.children && g in h.children[h.parent[g]]
      && h.parent[g] != g && ParentAt(h, rank, j) == At(h, rank, h.parent[g])
  {
    hide Pre, Order;
    var g := Groups(h, rank)[j];
    assert g != h.root;
    Rises(h, rank, g);
  }

  lemma ChildInSubtree(h: Hierarchy, rank: map<nat, nat>, p: nat, g: nat)
    requires Tree(h, rank) && p in h.children && g in h.children[p]
    ensures g in Subtree(h, rank, p)
  {
    SubtreeClosed(h, rank, p, p, g);
  }

  /** A group lies below another exactly when its parent lies in the other's subtree. */
  lemma BelowByParent(h: Hierarchy, rank: map<nat, nat>, i: nat, j: nat)
    requires Tree(h, rank) && i < j < |Groups(h, rank)|
    ensures j <= LastAt(h, rank, i) <==> i <= ParentAt(h, rank, j) <= LastAt(h, rank, i)
  {
    hide Tree, Subtree, Pre, ParentAt;
    var g, x := Groups(h, rank)[i], Groups(h, rank)[j];
    ParentFacts(h, rank, j);
    var p := h.parent[x];
    AtIs(h, rank, i);
    AtIs(h, rank, j);
    InBlock(h, rank, g, x);
    InBlock(h, rank, g, p);
    if x in Subtree(h, rank, g) {
      SubtreeBelow(h, rank, g, x);
    }
    if p in Subtree(h, rank, g) {
      SubtreeClosed(h, rank, g, p, x);
    }
  }

  /** The numbering is what the recomputation asks for, whatever the tree. */
  lemma TreeHasPreorder(h: Hierarchy, rank: map<nat, nat>)
    requires Tree(h, rank)
    ensures E.Hierarchy(PreorderOf(h, rank))
  {
    hide Tree, Groups, ParentAt, LastAt;
    var p, n := PreorderOf(h, rank), |Groups(h, rank)|;
    forall i | 0 < i < n ensures 0 <= p.parent[i] < i {
      ParentFirst(h, rank, i);
    }
    forall i | 0 <= i < n ensures i <= p.last[i] < n {
      LastInRange(h, rank, i);
    }
    forall i, j | 0 <= i < j < n ensures j <= p.last[i] <==> i <= p.parent[j] <= p.last[i] {
      BelowByParent(h, rank, i, j);
    }
  }

  // ----- effective clamps of a tree -----

  /** The effective clamps of a group, from its request and its parent's effective clamps. */
  ghost function OnTree(h: Hierarchy, rank: map<nat, nat>, req: map<nat, Clamps>, g: nat): Clamps
    requires Tree(h, rank) && g in h.children && h.children.Keys <= req.Keys
    decreases rank[h.root] - rank[g]
  {
    if g == h.root then E.Capped(req[g], true, req[g])
    else
      Rises(h, rank, g);
      E.Capped(req[g], false, OnTree(h, rank, req, h.parent[g]))
  }

  /**
    `c` is what `g` may use: the lowest UCLAMP_MAX requested by the group and its ancestors, and the
    lowest request of either kind among them as UCLAMP_MIN.
   */
  ghost predicate MostRestrictive(h: Hierarchy, rank: map<nat, nat>, req: map<nat, Clamps>, g: nat, c: Clamps)
    requires Tree(h, rank) && h.children.Keys <= req.Keys
  {
    && (forall a: nat | a in h.children && g in Subtree(h, rank, a) ::
          c.max <= req[a].max && c.min <= req[a].min && c.min <= req[a].max)
    && (exists a: nat :: a in h.children && g in Subtree(h, rank, a) && c.max == req[a].max)
    && (exists a: nat :: a in h.children && g in Subtree(h, rank, a) && (c.min == req[a].min || c.min == req[a].max))
  }

  ghost function Requests(h: Hierarchy, rank: map<nat, nat>, req: map<nat, Clamps>): (s: seq<Clamps>)
    requires Tree(h, rank) && h.children.Keys <= req.Keys
    ensures |s| == |Groups(h, rank)|
  {
    var l := Groups(h, rank);
    seq(|l|, i requires 0 <= i < |l| => req[l[i]])
  }

  /** What the recomputation leaves at a position is the effective value of the group there, in the tree itself. */
  lemma {:induction false} EffectiveOnTree(h: Hierarchy, rank: map<nat, nat>, req: map<nat, Clamps>, g: nat)
    requires Tree(h, rank) && g in h.children && h.children.Keys <= req.Keys
    ensures E.Hierarchy(PreorderOf(h, rank))
    ensures E.Effective(PreorderOf(h, rank), Requests(h, rank, req), At(h, rank, g)) == OnTree(h, rank, req, g)
    decreases rank[h.root] - rank[g]
  {
    hide Groups, E.Hierarchy, E.Capped, ChildAt;
    TreeHasPreorder(h, rank);
    var i := At(h, rank, g);
    if g == h.root {
      AtIs(h, rank, 0);
    } else {
      Rises(h, rank, g);
      AtIs(h, rank, i);
      EffectiveOnTree(h, rank, req, h.parent[g]);
    }
  }

  /** Lying below, by position and in the tree. */
  lemma UnderInTree(h: Hierarchy, rank: map<nat, nat>, a: nat, g: nat)
    requires Tree(h, rank) && a in h.children && g in h.children
    ensures E.Under(PreorderOf(h, rank), At(h, rank, a), At(h, rank, g)) <==> g in Subtree(h, rank, a)
  {
    hide Tree, Subtree, Pre, ParentAt, Groups;
    InBlock(h, rank, a, g);
    AtIs(h, rank, At(h, rank, a));
  }

  lemma RequestAt(h: Hierarchy, rank: map<nat, nat>, req: map<nat, Clamps>, a: nat)
    requires Tree(h, rank) && a in h.children && h.children.Keys <= req.Keys
    ensures Requests(h, rank, req)[At(h, rank, a)] == req[a]
  {
    hide Tree, Groups;
  }

  /** The position of a group and the requests there, where `c` is the most restrictive one. */
  ghost predicate AtPosition(h: Hierarchy, rank: map<nat, nat>, req: map<nat, Clamps>, g: nat, c: Clamps)
    requires Tree(h, rank) && g in h.children && h.children.Keys <= req.Keys
  {
    E.MostRestrictive(PreorderOf(h, rank), Requests(h, rank, req), At(h, rank, g), c)
  }

  lemma NoneIsLower(h: Hierarchy, rank: map<nat, nat>, req: map<nat, Clamps>, g: nat, c: Clamps, a: nat)
    requires Tree(h, rank) && g in h.children && h.children.Keys <= req.Keys && AtPosition(h, rank, req, g, c)
    requires a in h.children && g in Subtree(h, rank, a)
    ensures c.max <= req[a].max && c.min <= req[a].min && c.min <= req[a].max
  {
    hide Tree, Subtree, Groups, E.Under, PreorderOf, Requests;
    UnderInTree(h, rank, a, g);
    RequestAt(h, rank, req, a);
  }

  lemma SomeIsEqual(h: Hierarchy, rank: map<nat, nat>, req: map<nat, Clamps>, g: nat, c: Clamps) returns (a: nat, b: nat)
    requires Tree(h, rank) && g in h.children && h.children.Keys <= req.Keys && AtPosition(h, rank, req, g, c)
    ensures a in h.children && g in Subtree(h, rank, a) && c.max == req[a].max
    ensures b in h.children && g in Subtree(h, rank, b) && (c.min == req[b].min || c.min == req[b].max)
  {
    hide Tree, Subtree, Groups, PreorderOf, Requests;
    var r, i := Requests(h, rank, req), At(h, rank, g);
    var x: nat :| E.Under(PreorderOf(h, rank), x, i) && c.max == r[x].max;
    var y: nat :| E.Under(PreorderOf(h, rank), y, i) && (c.min == r[y].min || c.min == r[y].max);
    hide E.MostRestrictive;
    UnderIsGroup(h, rank, x, g);
    UnderIsGroup(h, rank, y, g);
    a, b := Groups(h, rank)[x], Groups(h, rank)[y];
    RequestAt(h, rank, req, a);
    RequestAt(h, rank, req, b);
  }

  /** The most restrictive request on the path to a group of the tree wins. */
  lemma OnTreeIsMostRestrictive(h: Hierarchy, rank: map<nat, nat>, req: map<nat, Clamps>, g: nat)
    requires Tree(h, rank) && g in h.children && h.children.Keys <= req.Keys
    ensures MostRestrictive(h, rank, req, g, OnTree(h, rank, req, g))
  {
    var c := OnTree(h, rank, req, g);
    hide Tree, OnTree, Subtree, Groups, AtPosition;
    OnTreeAtPosition(h, rank, req, g);
    forall a: nat | a in h.children && g in Subtree(h, rank, a)
      ensures c.max <= req[a].max && c.min <= req[a].min && c.min <= req[a].max
    {
      NoneIsLower(h, rank, req, g, c, a);
    }
    var a, b := SomeIsEqual(h, rank, req, g, c);
  }

  lemma OnTreeAtPosition(h: Hierarchy, rank: map<nat, nat>, req: map<nat, Clamps>, g: nat)
    requires Tree(h, rank) && g in h.children && h.children.Keys <= req.Keys
    ensures AtPosition(h, rank, req, g, OnTree(h, rank, req, g))
  {
    hide Tree, OnTree, Groups, E.MostRestrictive, E.Effective, E.Hierarchy, PreorderOf, Requests;
    EffectiveOnTree(h, rank, req, g);
    E.EffectiveIsMostRestrictive(PreorderOf(h, rank), Requests(h, rank, req), At(h, rank, g), OnTree(h, rank, req, g));
  }

  lemma UnderIsGroup(h: Hierarchy, rank: map<nat, nat>, x: nat, g: nat)
    requires Tree(h, rank) && g in h.children && E.Under(PreorderOf(h, rank), x, At(h, rank, g))
    ensures x < |Groups(h, rank)| && At(h, rank, Groups(h, rank)[x]) == x
    ensures g in Subtree(h, rank, Groups(h, rank)[x])
  {
    hide Tree, Subtree, Groups;
    AtIs(h, rank, x);
    UnderInTree(h, rank, Groups(h, rank)[x], g);
  }
}
