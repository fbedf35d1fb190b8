/**
  The intersection program: a controller thread and four direction threads that hand control to
  each other. A signal to a direction thread followed by the controller's wait is one hand-off,
  which runs that thread until it signals back.
 */
module Crossing {
  import opened Basics

  /** Start points are 1 to 4; 1 faces 3 and 2 faces 4. */
  function Opposite(d: nat): nat {
    if d == 1 then 3 else if d == 2 then 4 else if d == 3 then 1 else if d == 4 then 2 else 0
  }

  predicate IsStart(d: nat) {
    1 <= d <= 4
  }

  predicate Starts(starts: seq<nat>) {
    |starts| >= 1 && forall i | 0 <= i < |starts| :: IsStart(starts[i])
  }

  function Count(s: seq<nat>, d: nat): nat {
    if s == [] then 0 else Count(s[..|s| - 1], d) + if s[|s| - 1] == d then 1 else 0
  }

  // ----- counting lemmas -----

  lemma CountAppend(s: seq<nat>, x: nat, d: nat)
    ensures Count(s + [x], d) == Count(s, d) + if x == d then 1 else 0
  {
    assert (s + [x])[..|s|] == s;
  }

  lemma {:induction false} CountUpdate(s: seq<nat>, i: nat, x: nat, d: nat)
    requires i < |s|
    ensures Count(s[i := x], d) + (if s[i] == d then 1 else 0) == Count(s, d) + if x == d then 1 else 0
    decreases |s|
  {
    var n := |s| - 1;
    if i < n {
      CountUpdate(s[..n], i, x, d);
      assert s[i := x][..n] == s[..n][i := x];
    } else {
      assert s[i := x][..n] == s[..n];
    }
  }

  lemma {:induction false} CountPositive(s: seq<nat>, i: nat)
    requires i < |s|
    ensures Count(s, s[i]) > 0
    decreases |s|
  {
    if i < |s| - 1 {
      CountPositive(s[..|s| - 1], i);
    }
  }

  lemma {:induction false} CountPrefix(s: seq<nat>, n: nat, d: nat)
    requires n <= |s|
    ensures Count(s[..n], d) <= Count(s, d)
    decreases |s|
  {
    if n < |s| {
      CountPrefix(s[..|s| - 1], n, d);
      assert s[..|s| - 1][..n] == s[..n];
    } else {
      assert s[..n] == s;
    }
  }

  /** All entries are start points or empty slots. */
  predicate Slots(s: seq<nat>) {
    forall i | 0 <= i < |s| :: s[i] <= 4
  }

  lemma {:induction false} CountTotal(s: seq<nat>)
    requires Slots(s)
    ensures Count(s, 1) + Count(s, 2) + Count(s, 3) + Count(s, 4) + Count(s, 0) == |s|
    decreases |s|
  {
    if s != [] {
      CountTotal(s[..|s| - 1]);
    }
  }

  lemma {:induction false} CountNone(s: seq<nat>, d: nat)
    requires forall i | 0 <= i < |s| :: s[i] != d
    ensures Count(s, d) == 0
    decreases |s|
  {
    if s != [] {
      CountNone(s[..|s| - 1], d);
    }
  }

  // ----- the state between two waits of the controller -----

  /**
    `process`, `passed` and `finish` are indexed by start point minus one; `handOvers` counts the
    ticks in which one car leaves while the car facing it starts.
   */
  datatype Road = Road(listIndex: nat, waiting: seq<nat>, process: seq<nat>, passed: seq<nat>, finish: seq<bool>,
                       whr: nat, whereTemp: nat, temp: bool, tick: nat, handOvers: nat)

  predicate Shape(s: Road) {
    |s.process| == |s.passed| == |s.finish| == 4
  }

  /** What thread `d` does between being signalled and signalling back. */
  function HandOff(starts: seq<nat>, s: Road, d: nat): (s': Road)
    requires Shape(s) && IsStart(d)
    ensures Shape(s')
  {
    var p := s.process[d - 1] + 1;
    var s1 :=
      if p == 1 then s.(process := s.process[d - 1 := 1], whr := d)
      else if p == 2 then s.(process := s.process[d - 1 := 0], passed := s.passed[d - 1 := s.passed[d - 1] + 1], whr := 0)
      else s.(process := s.process[d - 1 := p]);
    if s1.passed[d - 1] == Count(starts, d) then s1.(finish := s1.finish[d - 1 := true]) else s1
  }

  /** A signalled thread puts its vehicle under way, or lets the one under way pass, and finishes after its last. */
  predicate ThreadRan(starts: seq<nat>, s: Road, d: nat, s': Road)
    requires Shape(s) && IsStart(d)
  {
    && s'.finish == s.finish[d - 1 := s.finish[d - 1] || (d - 1 < |s'.passed| && s'.passed[d - 1] == Count(starts, d))]
    && match s.process[d - 1]
       case 0 => s'.process == s.process[d - 1 := 1] && s'.whr == d && s'.passed == s.passed
       case 1 => s'.process == s.process[d - 1 := 0] && s'.whr == 0 && s'.passed == s.passed[d - 1 := s.passed[d - 1] + 1]
       case n => s'.process == s.process[d - 1 := n + 1] && s'.whr == s.whr && s'.passed == s.passed
  }

  /** A tick passes, the next vehicle joins the end of the line, and one that set off beside another holds the road. */
  predicate VehicleCame(starts: seq<nat>, s: Road, s': Road) {
    && s'.tick == s.tick + 1 && s'.listIndex == s.listIndex + 1 && !s'.temp
    && s'.whr == (if s.temp then s.whereTemp else s.whr)
    && s'.waiting
       == if s.listIndex < |starts| && starts[s.listIndex] > 0 then s.waiting + [starts[s.listIndex]] else s.waiting
  }

  /** Program start: threads without vehicles finish at once, the first vehicle sets off. */
  function Begin(starts: seq<nat>): Road
    requires Starts(starts)
  {
    HandOff(starts,
      Road(1, [], [0, 0, 0, 0], [0, 0, 0, 0], seq(4, i requires 0 <= i < 4 => Count(starts, i + 1) == 0), 0, 0, false, 1, 0),
      starts[0])
  }

  /** The controller's next round up to the choice: the clock, the arrival, who holds the road. */
  function Arrive(starts: seq<nat>, s: Road): Road {
    var start := if s.listIndex < |starts| then starts[s.listIndex] else 0;
    s.(tick := s.tick + 1, listIndex := s.listIndex + 1,
       waiting := if start > 0 then s.waiting + [start] else s.waiting,
       whr := if s.temp then s.whereTemp else s.whr, temp := false)
  }

  /** First slot from `i` on that holds any vehicle. */
  function FirstBusy(w: seq<nat>, i: nat): (j: nat)
    requires i <= |w|
    ensures i <= j <= |w|
    ensures j < |w| ==> w[j] > 0
    ensures forall m | i <= m < j :: w[m] == 0
    decreases |w| - i
  {
    if i == |w| || w[i] > 0 then i else FirstBusy(w, i + 1)
  }

  /** The slot chosen: a vehicle facing the one on the road if there is one, else the first in line. */
  function Choice(s: Road): (j: nat)
    ensures j <= |s.waiting|
  {
    var j := if IsStart(s.whr) then FirstFrom(s.waiting, Opposite(s.whr), 0) else |s.waiting|;
    if j < |s.waiting| then j else FirstBusy(s.waiting, 0)
  }

  /** Two start points on the same road. */
  predicate Facing(x: nat, y: nat) {
    IsStart(x) && IsStart(y) && (x == y + 2 || y == x + 2)
  }

  /**
    Slot `j` of the line holds the first vehicle facing start point `x`; if there is none, the first
    vehicle at all; `j` is the length of the line if there is none either.
   */
  ghost predicate NextInLine(x: nat, line: seq<nat>, j: nat) {
    && j <= |line|
    && (exists m :: 0 <= m < |line| && Facing(x, line[m])) ==
       (j < |line| && Facing(x, line[j]) && forall m | 0 <= m < j :: !Facing(x, line[m]))
    && ((forall m | 0 <= m < |line| :: !Facing(x, line[m])) ==>
          (j < |line| ==> line[j] > 0) && forall m | 0 <= m < j :: line[m] == 0)
  }

  lemma ChoiceIsNextInLine(s: Road)
    ensures NextInLine(s.whr, s.waiting, Choice(s))
  {
    var o := Opposite(s.whr);
    assert forall y :: Facing(s.whr, y) <==> IsStart(s.whr) && y == o;
  }

  predicate AllFinished(s: Road)
    requires Shape(s)
  {
    s.finish[0] && s.finish[1] && s.finish[2] && s.finish[3]
  }

  /** One round in which not all threads have finished, after `Arrive`. */
  function Serve(starts: seq<nat>, s: Road): Road
    requires Shape(s) && Slots(s.waiting) && s.whr <= 4
  {
    var j := Choice(s);
    if s.whr == 0 then
      if j == |s.waiting| then s
      else HandOff(starts, s.(waiting := s.waiting[j := 0]), s.waiting[j])
    else if j < |s.waiting| && s.waiting[j] == Opposite(s.whr) then
      var s1 := HandOff(starts, s.(waiting := s.waiting[j := 0]), s.waiting[j]);
      HandOff(starts, s1.(whereTemp := s1.whr, temp := true, handOvers := s1.handOvers + 1), s.whr)
    else HandOff(starts, s, s.whr)
  }

  // ----- the invariant -----

  function Arrived(starts: seq<nat>, s: Road): nat {
    if s.listIndex <= |starts| then s.listIndex else |starts|
  }

  /** The start point of the vehicle on the road; 0 when it is free. */
  function OnRoad(s: Road): nat {
    if s.temp then s.whereTemp else s.whr
  }

  /**
    The books of start point `d`: taken = passed + on the road + waiting, finished = all passed.
    The vehicles on the road come from `x` and `y` (0 for none).
   */
  ghost predicate Tally(starts: seq<nat>, s: Road, d: nat, x: nat, y: nat)
    requires Shape(s) && IsStart(d)
  {
    && Count(starts[..Arrived(starts, s)], d) == s.passed[d - 1] + s.process[d - 1] + Count(s.waiting, d)
    && (s.finish[d - 1] <==> s.passed[d - 1] == Count(starts, d))
    && s.process[d - 1] == if d == x || d == y then 1 else 0
  }

  ghost predicate Tallies(starts: seq<nat>, s: Road, x: nat, y: nat) {
    Shape(s) && forall d | IsStart(d) :: Tally(starts, s, d, x, y)
  }

  function Passed(s: Road): nat
    requires Shape(s)
  {
    s.passed[0] + s.passed[1] + s.passed[2] + s.passed[3]
  }

  function Busy(s: Road): nat {
    if OnRoad(s) == 0 then 0 else 1
  }

  /**
    Every vehicle taken from the list has passed, is on the road or waits; at most one is on the
    road; and the clock is the vehicles started plus the vehicles passed, less the hand-overs.
   */
  ghost predicate Inv(starts: seq<nat>, s: Road)
    requires Starts(starts)
  {
    && Shape(s) && Slots(s.waiting)
    && OnRoad(s) <= 4 && s.whr <= 4
    && s.listIndex == s.tick >= 1
    && Tallies(starts, s, OnRoad(s), 0)
    && s.tick + s.handOvers == 2 * Passed(s) + Busy(s)
    && s.handOvers <= Passed(s) && s.handOvers < Passed(s) + Busy(s)
  }

  lemma ArriveKeeps(starts: seq<nat>, s: Road)
    requires Starts(starts) && Inv(starts, s)
    ensures var a := Arrive(starts, s);
      && Tallies(starts, a, a.whr, 0) && Slots(a.waiting)
      && OnRoad(a) == a.whr == OnRoad(s) && !a.temp
      && a.process == s.process && a.passed == s.passed && a.finish == s.finish && a.handOvers == s.handOvers
      && a.listIndex == a.tick == s.tick + 1
  {
    var a := Arrive(starts, s);
    forall d | IsStart(d) ensures Tally(starts, a, d, a.whr, 0) {
      ArriveTally(starts, s, d);
    }
  }

  lemma ArriveTally(starts: seq<nat>, s: Road, d: nat)
    requires Starts(starts) && Shape(s) && IsStart(d) && Tally(starts, s, d, OnRoad(s), 0)
    ensures var a := Arrive(starts, s); Tally(starts, a, d, a.whr, 0)
  {
    hide Count;
    if s.listIndex < |starts| {
      var start := starts[s.listIndex];
      assert starts[..s.listIndex + 1] == starts[..s.listIndex] + [start];
      CountAppend(starts[..s.listIndex], start, d);
      CountAppend(s.waiting, start, d);
    }
  }

  /** A waiting vehicle sets off, beside the one on the road if there is one: the hand-off itself does not ask which. */
  lemma SetsOff(starts: seq<nat>, a: Road, j: nat)
    requires Starts(starts) && Tallies(starts, a, a.whr, 0) && Slots(a.waiting) && !a.temp
    requires j < |a.waiting| && IsStart(a.waiting[j]) && a.whr != a.waiting[j] && a.whr <= 4
    ensures var d := a.waiting[j]; var s := HandOff(starts, a.(waiting := a.waiting[j := 0]), d);
      && Slots(s.waiting) && s.whr == d && Tallies(starts, s, a.whr, d)
      && s == a.(waiting := s.waiting, process := s.process, whr := d)
  {
    var d := a.waiting[j];
    var s := HandOff(starts, a.(waiting := a.waiting[j := 0]), d);
    assert Tally(starts, a, d, a.whr, 0);
    assert s.finish == a.finish;
    forall e | IsStart(e) ensures Tally(starts, s, e, a.whr, d) {
      assert Tally(starts, a, e, a.whr, 0);
      CountUpdate(a.waiting, j, 0, e);
    }
  }

  /** The vehicle on the road leaves, whoever has just set off beside it. */
  lemma Leaves(starts: seq<nat>, a: Road, w: nat, other: nat)
    requires Starts(starts) && IsStart(w) && other <= 4 && other != w && Tallies(starts, a, w, other)
    ensures var s := HandOff(starts, a, w);
      && Tallies(starts, s, 0, other) && Passed(s) == Passed(a) + 1
      && s == a.(process := s.process, passed := a.passed[w - 1 := a.passed[w - 1] + 1], whr := 0, finish := s.finish)
  {
    var s := HandOff(starts, a, w);
    CountPrefix(starts, Arrived(starts, a), w);
    assert Tally(starts, a, w, w, other);
    forall e | IsStart(e) ensures Tally(starts, s, e, 0, other) {
      LeavesTally(starts, a, w, other, e);
    }
  }

  lemma LeavesTally(starts: seq<nat>, a: Road, w: nat, other: nat, e: nat)
    requires Starts(starts) && IsStart(w) && IsStart(e) && other != w && Shape(a)
    requires Tally(starts, a, w, w, other) && Tally(starts, a, e, w, other)
    ensures Tally(starts, HandOff(starts, a, w), e, 0, other)
  {
    CountPrefix(starts, Arrived(starts, a), w);
  }

  /** A thread is signalled only while it still has vehicles to pass, so never after it has finished. */
  lemma SignalledThreadIsAlive(starts: seq<nat>, s: Road, d: nat)
    requires Starts(starts) && Inv(starts, s) && IsStart(d)
    requires var a := Arrive(starts, s); OnRoad(a) == d || (Choice(a) < |a.waiting| && a.waiting[Choice(a)] == d)
    ensures !s.finish[d - 1] && s.passed[d - 1] < Count(starts, d)
  {
    var a := Arrive(starts, s);
    ArriveKeeps(starts, s);
    assert Tally(starts, a, d, a.whr, 0);
    CountPrefix(starts, Arrived(starts, a), d);
    if OnRoad(a) != d {
      CountPositive(a.waiting, Choice(a));
    }
  }

  lemma Books(starts: seq<nat>, s: Road, x: nat)
    requires Tallies(starts, s, x, 0)
    ensures Tally(starts, s, 1, x, 0) && Tally(starts, s, 2, x, 0) && Tally(starts, s, 3, x, 0) && Tally(starts, s, 4, x, 0)
  {
  }

  lemma Sums(starts: seq<nat>, s: Road)
    requires Starts(starts) && Tallies(starts, s, OnRoad(s), 0) && s.listIndex >= 1 && OnRoad(s) <= 4
    ensures Arrived(starts, s) == Passed(s) + Busy(s) + Count(s.waiting, 1) + Count(s.waiting, 2) + Count(s.waiting, 3) + Count(s.waiting, 4)
  {
    var taken := starts[..Arrived(starts, s)];
    CountTotal(taken);
    CountNone(taken, 0);
    Books(starts, s, OnRoad(s));
  }

  /** The crossing never stalls: with the road free and some thread unfinished, a vehicle is waiting. */
  lemma NeverStalls(starts: seq<nat>, s: Road)
    requires Starts(starts) && Inv(starts, s) && OnRoad(s) == 0
    requires !AllFinished(Arrive(starts, s))
    ensures var a := Arrive(starts, s); Choice(a) < |a.waiting| && IsStart(a.waiting[Choice(a)])
  {
    var a := Arrive(starts, s);
    ArriveKeeps(starts, s);
    Books(starts, a, a.whr);
    assert starts[..|starts|] == starts;
    if Choice(a) == |a.waiting| {
      CountNone(a.waiting, 1);
      CountNone(a.waiting, 2);
      CountNone(a.waiting, 3);
      CountNone(a.waiting, 4);
      Sums(starts, a);
    }
  }

  /** One whole round that does not end the program. */
  function Round(starts: seq<nat>, s: Road): Road
    requires Shape(s) && Slots(Arrive(starts, s).waiting) && Arrive(starts, s).whr <= 4
  {
    Serve(starts, Arrive(starts, s))
  }

  ghost predicate CanRound(starts: seq<nat>, s: Road) {
    Starts(starts) && Inv(starts, s) && !AllFinished(Arrive(starts, s))
      && Slots(Arrive(starts, s).waiting) && Arrive(starts, s).whr <= 4
  }

  /** Twice the vehicles that have not started, plus the one on the road. */
  function Left(starts: seq<nat>, s: Road): int
    requires Shape(s)
  {
    2 * (|starts| - Passed(s) - Busy(s)) + Busy(s)
  }

  /** A round with the road free starts one vehicle. */
  lemma RoundStarts(starts: seq<nat>, s: Road)
    requires CanRound(starts, s) && OnRoad(s) == 0
    ensures var s' := Round(starts, s);
      Inv(starts, s') && OnRoad(s') != 0 && Left(starts, s') < Left(starts, s) && s'.passed == s.passed
  {
    var a := Arrive(starts, s);
    ArriveKeeps(starts, s);
    NeverStalls(starts, s);
    SetsOff(starts, a, Choice(a));
    SwapTallies(starts, Round(starts, s), 0, OnRoad(Round(starts, s)));
  }

  lemma SwapTallies(starts: seq<nat>, s: Road, x: nat, y: nat)
    requires Tallies(starts, s, x, y)
    ensures Tallies(starts, s, y, x)
  {
    forall d | IsStart(d) ensures Tally(starts, s, d, y, x) {
      assert Tally(starts, s, d, x, y);
    }
  }

  /** The vehicle on the road is the only one to move. */
  lemma ServeAlone(starts: seq<nat>, a: Road)
    requires Starts(starts) && Tallies(starts, a, a.whr, 0) && Slots(a.waiting) && !a.temp && IsStart(a.whr)
    requires !(Choice(a) < |a.waiting| && a.waiting[Choice(a)] == Opposite(a.whr))
    ensures var s, w := Serve(starts, a), a.whr;
      && Tallies(starts, s, 0, 0) && Passed(s) == Passed(a) + 1
      && s == a.(process := s.process, passed := a.passed[w - 1 := a.passed[w - 1] + 1], whr := 0, finish := s.finish)
  {
    hide HandOff, Choice;
    Leaves(starts, a, a.whr, 0);
    assert Serve(starts, a) == HandOff(starts, a, a.whr);
  }

  /** One vehicle sets off while the one that it faces leaves. */
  lemma ServeBoth(starts: seq<nat>, a: Road)
    requires Starts(starts) && Tallies(starts, a, a.whr, 0) && Slots(a.waiting) && !a.temp && IsStart(a.whr)
    requires Choice(a) < |a.waiting| && a.waiting[Choice(a)] == Opposite(a.whr)
    ensures var s, w := Serve(starts, a), a.whr;
      && Tallies(starts, s, 0, Opposite(w)) && Passed(s) == Passed(a) + 1 && Slots(s.waiting)
      && s == a.(waiting := s.waiting, process := s.process, passed := a.passed[w - 1 := a.passed[w - 1] + 1], whr := 0,
                 finish := s.finish, whereTemp := Opposite(w), temp := true, handOvers := a.handOvers + 1)
  {
    hide HandOff, Choice, Tally, Count, Slots;
    var j, w := Choice(a), a.whr;
    SetsOff(starts, a, j);
    var s1 := HandOff(starts, a.(waiting := a.waiting[j := 0]), a.waiting[j]);
    var s2 := s1.(whereTemp := s1.whr, temp := true, handOvers := s1.handOvers + 1);
    SameBooks(starts, s1, s2, w, Opposite(w));
    Leaves(starts, s2, w, Opposite(w));
    assert Serve(starts, a) == HandOff(starts, s2, w);
  }

  lemma SameBooks(starts: seq<nat>, s: Road, s': Road, x: nat, y: nat)
    requires Tallies(starts, s, x, y)
    requires s' == s.(whereTemp := s'.whereTemp, temp := s'.temp, handOvers := s'.handOvers)
    ensures Tallies(starts, s', x, y)
  {
    forall d | IsStart(d) ensures Tally(starts, s', d, x, y) {
      assert Tally(starts, s, d, x, y);
    }
  }

  lemma ServeLeaves(starts: seq<nat>, s: Road, a: Road)
    requires Starts(starts) && Inv(starts, s) && OnRoad(s) != 0
    requires Tallies(starts, a, a.whr, 0) && Slots(a.waiting) && a.whr == OnRoad(s) && IsStart(a.whr) && !a.temp
    requires a.listIndex == a.tick == s.tick + 1 && a.passed == s.passed && a.handOvers == s.handOvers
    ensures var s', w := Serve(starts, a), OnRoad(s);
      && Inv(starts, s') && Left(starts, s') < Left(starts, s)
      && (OnRoad(s') == 0 || OnRoad(s') == Opposite(w))
      && s'.passed == s.passed[w - 1 := s.passed[w - 1] + 1]
      && s'.handOvers == s.handOvers + Busy(s')
  {
    hide Serve, Choice, Tally, Inv, Slots;
    var s' := Serve(starts, a);
    if Choice(a) < |a.waiting| && a.waiting[Choice(a)] == Opposite(a.whr) {
      ServeBoth(starts, a);
      SwapTallies(starts, s', 0, Opposite(a.whr));
    } else {
      ServeAlone(starts, a);
    }
    hide Tallies;
    Accounts(starts, s, a, s');
  }

  /** A round with a vehicle on the road: it leaves, and one facing it may start in its place. */
  lemma RoundLeaves(starts: seq<nat>, s: Road)
    requires CanRound(starts, s) && OnRoad(s) != 0
    ensures var s' := Round(starts, s); var w := OnRoad(s);
      && Inv(starts, s')
      && (OnRoad(s') == 0 || OnRoad(s') == Opposite(w))
      && s'.passed == s.passed[w - 1 := s.passed[w - 1] + 1]
      && s'.handOvers == s.handOvers + Busy(s')
      && Left(starts, s') < Left(starts, s)
  {
    var a := Arrive(starts, s);
    ArriveKeeps(starts, s);
    assert IsStart(a.whr);
    hide Arrive, Serve, Choice, Tallies, Tally, Slots;
    ServeLeaves(starts, s, a);
  }

  /** The clock after a round in which one vehicle passed. */
  lemma Accounts(starts: seq<nat>, s: Road, a: Road, s': Road)
    requires Starts(starts) && Inv(starts, s) && OnRoad(s) != 0 && Shape(a) && Shape(s')
    requires a.tick == a.listIndex == s.tick + 1 && a.passed == s.passed && a.handOvers == s.handOvers
    requires s'.tick == a.tick && s'.listIndex == a.listIndex && Passed(s') == Passed(a) + 1
    requires s'.handOvers == a.handOvers + Busy(s')
    requires Slots(s'.waiting) && OnRoad(s') <= 4 && s'.whr <= 4 && Tallies(starts, s', OnRoad(s'), 0)
    ensures Inv(starts, s') && Left(starts, s') < Left(starts, s)
  {
    hide Tallies, Slots;
  }

  lemma CountOne(x: nat, d: nat)
    ensures Count([x], d) == if x == d then 1 else 0
  {
    CountAppend([], x, d);
    assert [] + [x] == [x];
  }

  lemma BeginTally(starts: seq<nat>, d: nat)
    requires Starts(starts) && IsStart(d)
    ensures var s := Begin(starts); s.whr == starts[0] && !s.temp && s.waiting == [] && Tally(starts, s, d, starts[0], 0)
  {
    var first := starts[0];
    assert starts[..1] == [first];
    CountOne(first, d);
    CountPositive(starts, 0);
  }

  lemma BeginInv(starts: seq<nat>)
    requires Starts(starts)
    ensures Inv(starts, Begin(starts))
  {
    var s := Begin(starts);
    assert s.passed == [0, 0, 0, 0] && s.handOvers == 0 && s.tick == s.listIndex == 1;
    hide Begin, Tally;
    BeginTally(starts, starts[0]);
    forall d | IsStart(d) ensures Tally(starts, s, d, OnRoad(s), 0) {
      BeginTally(starts, d);
    }
  }

  /** When all threads have finished, every vehicle has passed and the clock shows the exact duration. */
  lemma EndOfRun(starts: seq<nat>, s: Road)
    requires Starts(starts) && Inv(starts, s) && AllFinished(Arrive(starts, s))
    ensures Passed(s) == |starts| && OnRoad(s) == 0
    ensures s.tick == 2 * |starts| - s.handOvers
    ensures |starts| + 1 <= s.tick <= 2 * |starts|
  {
    CountTotal(starts);
    CountNone(starts, 0);
    Books(starts, s, OnRoad(s));
    if OnRoad(s) != 0 {
      CountPrefix(starts, Arrived(starts, s), OnRoad(s));
    }
  }

  /** Every round but the last keeps the invariant and makes progress. */
  lemma RoundProgress(starts: seq<nat>, s: Road)
    requires CanRound(starts, s)
    ensures var s' := Round(starts, s);
      && Inv(starts, s') && Left(starts, s') < Left(starts, s)
      && (OnRoad(s) != 0 ==> s'.passed == s.passed[OnRoad(s) - 1 := s.passed[OnRoad(s) - 1] + 1])
      && s'.handOvers - s.handOvers == (if OnRoad(s) != 0 && OnRoad(s') != 0 then 1 else 0)
      && (OnRoad(s) != 0 && OnRoad(s') != 0 ==> OnRoad(s') == Opposite(OnRoad(s)))
  {
    if OnRoad(s) == 0 {
      RoundStarts(starts, s);
    } else {
      RoundLeaves(starts, s);
    }
  }

  // ----- every run -----

  /** The rounds of a run, up to but not including the one that ends it. */
  ghost predicate IsRun(starts: seq<nat>, ss: seq<Road>) {
    && Starts(starts) && ss != [] && ss[0] == Begin(starts)
    && forall i | 0 <= i < |ss| - 1 :: CanRound(starts, ss[i]) && ss[i + 1] == Round(starts, ss[i])
  }

  lemma {:induction false} RunKeepsInv(starts: seq<nat>, ss: seq<Road>, i: nat)
    requires IsRun(starts, ss) && i < |ss|
    ensures Inv(starts, ss[i])
  {
    if i == 0 {
      BeginInv(starts);
    } else {
      RunKeepsInv(starts, ss, i - 1);
      RoundProgress(starts, ss[i - 1]);
    }
  }

  /** At the head of every round at most one vehicle is under way, and no start point has lost or gained any. */
  lemma SafeAndConserved(starts: seq<nat>, ss: seq<Road>, i: nat, d: nat)
    requires IsRun(starts, ss) && i < |ss| && IsStart(d)
    ensures var s := ss[i];
      && Shape(s)
      && s.process[d - 1] == (if OnRoad(s) == d then 1 else 0)
      && Count(starts[..Arrived(starts, s)], d) == s.passed[d - 1] + s.process[d - 1] + Count(s.waiting, d)
      && (s.finish[d - 1] <==> s.passed[d - 1] == Count(starts, d))
  {
    RunKeepsInv(starts, ss, i);
    assert Tally(starts, ss[i], d, OnRoad(ss[i]), 0);
  }

  /** The line once the next vehicle has arrived. */
  function Line(starts: seq<nat>, s: Road): seq<nat> {
    if s.listIndex < |starts| then s.waiting + [starts[s.listIndex]] else s.waiting
  }

  /** Who is under way after a round that began with `w` under way, and who is left in the line. */
  ghost predicate FollowsAt(w: nat, line: seq<nat>, j: nat, s': Road) {
    && NextInLine(w, line, j)
    && if j < |line| && (w == 0 || Facing(w, line[j]))
       then OnRoad(s') == line[j] && s'.waiting == line[j := 0]
       else OnRoad(s') == 0 && s'.waiting == line
  }

  ghost predicate Follows(w: nat, line: seq<nat>, s': Road) {
    exists j :: FollowsAt(w, line, j, s')
  }

  /** What a round makes of the state after the arrival. */
  ghost predicate Served(a: Road, s': Road) {
    var j := Choice(a);
    if j < |a.waiting| && (a.whr == 0 || a.waiting[j] == Opposite(a.whr))
    then OnRoad(s') == a.waiting[j] && s'.waiting == a.waiting[j := 0]
    else OnRoad(s') == 0 && s'.waiting == a.waiting
  }

  lemma RoundServes(starts: seq<nat>, s: Road)
    requires CanRound(starts, s)
    ensures Served(Arrive(starts, s), Round(starts, s))
  {
    var a := Arrive(starts, s);
    ArriveKeeps(starts, s);
    hide Arrive, Choice, CanRound;
    if a.whr == 0 {
      NeverStalls(starts, s);
      SetsOff(starts, a, Choice(a));
    } else if Choice(a) < |a.waiting| && a.waiting[Choice(a)] == Opposite(a.whr) {
      SetsOff(starts, a, Choice(a));
      var s1 := HandOff(starts, a.(waiting := a.waiting[Choice(a) := 0]), a.waiting[Choice(a)]);
      ServeBoth(starts, a);
    } else {
      hide HandOff;
      ServeAlone(starts, a);
    }
  }

  lemma RoundFollows(starts: seq<nat>, s: Road)
    requires CanRound(starts, s)
    ensures Follows(OnRoad(s), Line(starts, s), Round(starts, s))
  {
    var a := Arrive(starts, s);
    ArriveKeeps(starts, s);
    ChoiceIsNextInLine(a);
    RoundServes(starts, s);
    LineIs(starts, s);
    hide Arrive, Line, NextInLine, Round, Choice;
    OnlyFacing(a);
    assert FollowsAt(OnRoad(s), Line(starts, s), Choice(a), Round(starts, s));
  }

  lemma LineIs(starts: seq<nat>, s: Road)
    requires Starts(starts)
    ensures Arrive(starts, s).waiting == Line(starts, s)
  {
  }

  lemma OnlyFacing(a: Road)
    ensures Choice(a) < |a.waiting| ==> (Facing(a.whr, a.waiting[Choice(a)]) <==> a.whr != 0 && a.waiting[Choice(a)] == Opposite(a.whr))
  {
  }

  /**
    In every round of every run a vehicle that faces the one under way sets off as soon as one is
    waiting, the first of them, and that is when the road is handed over; with the road free, the first in line does.
   */
  lemma HandedOverWhenFaced(starts: seq<nat>, ss: seq<Road>, i: nat)
    requires IsRun(starts, ss) && i + 1 < |ss|
    ensures var line, w := Line(starts, ss[i]), OnRoad(ss[i]);
      && (ss[i + 1].handOvers == ss[i].handOvers + 1 <==> exists m :: 0 <= m < |line| && Facing(w, line[m]))
      && (ss[i + 1].handOvers == ss[i].handOvers <==> forall m | 0 <= m < |line| :: !Facing(w, line[m]))
      && Follows(w, line, ss[i + 1])
  {
    var line, w := Line(starts, ss[i]), OnRoad(ss[i]);
    hide Line, Round, IsStart, CanRound;
    RoundFollows(starts, ss[i]);
    RoundProgress(starts, ss[i]);
    RunKeepsInv(starts, ss, i);
  }

  /** The states of a round: after the arrival, and after every hand-off to a direction thread. */
  ghost function Stages(starts: seq<nat>, s: Road): (stages: seq<Road>)
    requires Shape(s) && Slots(Arrive(starts, s).waiting) && Arrive(starts, s).whr <= 4
    ensures |stages| >= 2 && stages[|stages| - 1] == Round(starts, s)
  {
    var a := Arrive(starts, s);
    var j := Choice(a);
    if IsStart(a.whr) && j < |a.waiting| && a.waiting[j] == Opposite(a.whr)
    then [a, HandOff(starts, a.(waiting := a.waiting[j := 0]), a.waiting[j]), Round(starts, s)]
    else [a, Round(starts, s)]
  }

  /** A vehicle has set off beside `w`: exactly the two that face each other are under way. */
  lemma FacingPair(starts: seq<nat>, s: Road)
    requires CanRound(starts, s) && |Stages(starts, s)| == 3
    ensures var mid, w := Stages(starts, s)[1], OnRoad(s);
      IsStart(w) && Shape(mid) && forall d | IsStart(d) :: mid.process[d - 1] == if d == w || d == Opposite(w) then 1 else 0
  {
    ArriveKeeps(starts, s);
    var a := Arrive(starts, s);
    var mid, w := Stages(starts, s)[1], OnRoad(s);
    SetsOff(starts, a, Choice(a));
    forall d | IsStart(d) ensures mid.process[d - 1] == if d == w || d == Opposite(w) then 1 else 0 {
      assert Tally(starts, mid, d, w, Opposite(w));
    }
  }

  /** In every state of every round, two vehicles are under way only if they face each other, and no start point has two. */
  lemma OnlyFacingPairs(starts: seq<nat>, ss: seq<Road>, i: nat, n: nat, d: nat, e: nat)
    requires IsRun(starts, ss) && i + 1 < |ss| && CanRound(starts, ss[i]) && n < |Stages(starts, ss[i])|
    requires IsStart(d) && IsStart(e)
    ensures var x := Stages(starts, ss[i])[n];
      && Shape(x) && x.process[d - 1] <= 1
      && (d != e && x.process[d - 1] == 1 && x.process[e - 1] == 1 ==> d == Opposite(e) && n == 1 && |Stages(starts, ss[i])| == 3)
  {
    hide HandOff, Serve, FirstBusy, FirstFrom;
    var s := ss[i];
    var x := Stages(starts, s)[n];
    if n == 0 {
      ArriveKeeps(starts, s);
      assert Tally(starts, x, d, x.whr, 0) && Tally(starts, x, e, x.whr, 0);
    } else if n == |Stages(starts, s)| - 1 {
      SafeAndConserved(starts, ss, i + 1, d);
      SafeAndConserved(starts, ss, i + 1, e);
    } else {
      FacingPair(starts, s);
    }
  }

  /** The vehicle under way in `s` has passed in `s'`; only one facing it may be under way instead. */
  ghost predicate MovedOn(s: Road, s': Road) {
    && Shape(s) && IsStart(OnRoad(s))
    && s'.passed == s.passed[OnRoad(s) - 1 := s.passed[OnRoad(s) - 1] + 1]
    && (OnRoad(s') == 0 || OnRoad(s') == Opposite(OnRoad(s)))
  }

  lemma RoundMovesOn(starts: seq<nat>, s: Road)
    requires CanRound(starts, s) && OnRoad(s) != 0
    ensures MovedOn(s, Round(starts, s))
  {
    RoundLeaves(starts, s);
  }

  /** A vehicle under way at the head of a round has passed at the head of the next. */
  lemma LeavesInTheNextRound(starts: seq<nat>, ss: seq<Road>, i: nat)
    requires IsRun(starts, ss) && i + 1 < |ss| && OnRoad(ss[i]) != 0
    ensures MovedOn(ss[i], ss[i + 1])
  {
    hide MovedOn, Round;
    RoundMovesOn(starts, ss[i]);
  }

  // ----- the threads -----

  class Intersection {
    const starts: seq<nat>
    var listIndex: nat
    var waiting: seq<nat>
    var process: seq<nat>
    var passed: seq<nat>
    var finish: seq<bool>
    var whr: nat
    var whereTemp: nat
    var temp: bool
    var tick: nat
    ghost var handOvers: nat

    ghost function View(): Road
      reads this
    {
      Road(listIndex, waiting, process, passed, finish, whr, whereTemp, temp, tick, handOvers)
    }

    /** Start-up: the threads without vehicles finish, the first vehicle's thread is signalled. */
    constructor (starts: seq<nat>)
      requires Starts(starts)
      ensures this.starts == starts && View() == Begin(starts)
    {
      this.starts := starts;
      listIndex, waiting, process, passed := 1, [], [0, 0, 0, 0], [0, 0, 0, 0];
      finish := seq(4, i requires 0 <= i < 4 => Count(starts, i + 1) == 0);
      whr, whereTemp, temp, tick, handOvers := 0, 0, false, 1, 0;
      new;
      DirectionThread(starts[0]);
    }

    /** Threads 1 to 4, from the signal they wait for to the signal they send back. */
    method DirectionThread(d: nat)
      requires Shape(View()) && IsStart(d)
      modifies this`process, this`passed, this`finish, this`whr
      ensures View() == HandOff(starts, old(View()), d)
      ensures ThreadRan(starts, old(View()), d, View())
    {
      process := process[d - 1 := process[d - 1] + 1];
      if process[d - 1] == 1 {
        whr := d;
      } else if process[d - 1] == 2 {
        passed := passed[d - 1 := passed[d - 1] + 1];
        process := process[d - 1 := 0];
        whr := 0;
      }
      if passed[d - 1] == Count(starts, d) {
        finish := finish[d - 1 := true];
      }
    }

    /** The clock, the next arrival, and the vehicle that set off beside the last one. */
    method NextArrival()
      modifies this`tick, this`listIndex, this`waiting, this`whr, this`temp
      ensures View() == Arrive(starts, old(View()))
      ensures VehicleCame(starts, old(View()), View())
    {
      tick := tick + 1;
      var start := if listIndex < |starts| then starts[listIndex] else 0;
      listIndex := listIndex + 1;
      if start > 0 {
        waiting := waiting + [start];
      }
      if temp {
        whr := whereTemp;
        temp := false;
      }
    }

    /** The slot of a vehicle facing the one on the road, else of the first in line. */
    method ChooseSlot() returns (idx: nat)
      ensures idx == Choice(View())
      ensures NextInLine(whr, waiting, idx)
    {
      ChoiceIsNextInLine(View());
      var i := 0;
      if IsStart(whr) {
        while i < |waiting|
          invariant i <= |waiting|
          invariant FirstFrom(waiting, Opposite(whr), 0) == FirstFrom(waiting, Opposite(whr), i)
        {
          if waiting[i] == Opposite(whr) {
            return i;
          }
          i := i + 1;
        }
      }
      i := 0;
      while i < |waiting|
        invariant i <= |waiting|
        invariant FirstBusy(waiting, 0) == FirstBusy(waiting, i)
      {
        if waiting[i] > 0 {
          return i;
        }
        i := i + 1;
      }
      return |waiting|;
    }

    /** The chosen vehicle is taken out of the line. */
    method TakeChosen() returns (idx: nat, key: nat)
      modifies this`waiting
      ensures idx == Choice(old(View())) && NextInLine(whr, old(waiting), idx)
      ensures key == if idx < |old(waiting)| then old(waiting)[idx] else 0
      ensures waiting == if idx < |old(waiting)| then old(waiting)[idx := 0] else old(waiting)
    {
      hide Choice, NextInLine;
      idx := ChooseSlot();
      key := if idx < |waiting| then waiting[idx] else 0;
      if idx < |waiting| {
        waiting := waiting[idx := 0];
      }
    }

    /**
      The controller's switch on who holds the road. `key` has been taken from slot `idx` of the
      waiting list as it was in `before`, and goes back if its vehicle may not move.
     */
    method Switch(idx: nat, key: nat, ghost before: Road)
      requires Shape(before) && Slots(before.waiting) && before.whr <= 4 && idx == Choice(before)
      requires key == if idx < |before.waiting| then before.waiting[idx] else 0
      requires View() == if idx < |before.waiting| then before.(waiting := before.waiting[idx := 0]) else before
      modifies this
      ensures View() == Serve(starts, before)
    {
      var w := whr;
      ServeIs(starts, before, key, View());
      hide HandOff, Choice, Count, Slots, ThreadRan, Serve, Opposite;
      if w == 0 {
        if IsStart(key) {
          DirectionThread(key);
        }
      } else {
        LetPass(idx, key, w);
      }
    }

    /** The vehicle on the road leaves; one facing it sets off beside it, any other goes back to its slot. */
    method LetPass(idx: nat, key: nat, w: nat)
      requires Shape(View()) && IsStart(w) && (key != 0 && key == Opposite(w) ==> IsStart(key))
      modifies this
      ensures var s := old(View());
        View() == if key != 0 && key == Opposite(w)
                  then var s1 := HandOff(starts, s, key);
                    HandOff(starts, s1.(whereTemp := s1.whr, temp := true, handOvers := s1.handOvers + 1), w)
                  else HandOff(starts, if idx < |s.waiting| then s.(waiting := s.waiting[idx := key]) else s, w)
    {
      hide HandOff, Count, ThreadRan, Opposite;
      if key != 0 && key == Opposite(w) {
        DirectionThread(key);
        whereTemp := whr;
        temp := true;
        handOvers := handOvers + 1;
      } else if idx < |waiting| {
        waiting := waiting[idx := key];
      }
      DirectionThread(w);
    }

    /** One round of the controller; `done` when all direction threads have finished. */
    method ControllerRound() returns (done: bool)
      requires Starts(starts) && Inv(starts, View())
      modifies this
      ensures done ==> AllFinished(Arrive(starts, old(View()))) && tick == old(tick) + 1
      ensures done ==> passed == old(passed) && handOvers == old(handOvers)
      ensures !done ==> CanRound(starts, old(View())) && View() == Round(starts, old(View()))
    {
      ArriveKeeps(starts, View());
      assert OnRoad(View()) <= 4;
      hide Inv, Tallies, Arrive, Serve, Choice, NextInLine, VehicleCame, CanRound;
      if !AllFinished(Arrive(starts, View())) {
        RoundGoesOn(starts, View());
      }
      NextArrival();
      ghost var arrived := View();
      var idx, key := TakeChosen();
      if finish[0] && finish[1] && finish[2] && finish[3] {
        return true;
      }
      Switch(idx, key, arrived);
      return false;
    }

    /** The controller until it breaks: the time reported, and every vehicle through the crossing. */
    method Run() returns (total: nat)
      requires Starts(starts) && View() == Begin(starts)
      modifies this
      ensures total == 2 * |starts| - handOvers
      ensures |starts| + 1 <= total <= 2 * |starts|
      ensures |passed| == 4 && forall d | IsStart(d) :: passed[d - 1] == Count(starts, d)
    {
      hide Inv, Begin, Round, CanRound;
      BeginInv(starts);
      InvShape(starts, View());
      var done := false;
      ghost var last := View();
      while !done
        invariant Starts(starts) && Inv(starts, last) && Shape(last)
        invariant !done ==> last == View()
        invariant done ==> AllFinished(Arrive(starts, last)) && tick == last.tick + 1
        invariant done ==> passed == last.passed && handOvers == last.handOvers
        decreases Left(starts, last), !done
      {
        LeftIsNatural(starts, last);
        done := ControllerRound();
        if !done {
          RoundProgress(starts, last);
          last := View();
          InvShape(starts, last);
        }
      }
      EndOfRun(starts, last);
      ArriveKeeps(starts, last);
      AllPassed(starts, last);
      total := tick - 1;
    }
  }

  /** The controller's switch, once the chosen vehicle has been taken out of the line. */
  lemma ServeIs(starts: seq<nat>, before: Road, key: nat, s: Road)
    requires Shape(before) && Slots(before.waiting) && before.whr <= 4
    requires var j := Choice(before);
      && key == (if j < |before.waiting| then before.waiting[j] else 0)
      && s == if j < |before.waiting| then before.(waiting := before.waiting[j := 0]) else before
    ensures var w := before.whr;
      && key <= 4
      && (w == 0 ==> Serve(starts, before) == if IsStart(key) then HandOff(starts, s, key) else s)
      && (w != 0 ==> IsStart(w) && (key != 0 && key == Opposite(w) ==> IsStart(key)))
      && (w != 0 && key != 0 && key == Opposite(w) ==>
            var s1 := HandOff(starts, s, key);
            Serve(starts, before) == HandOff(starts, s1.(whereTemp := s1.whr, temp := true, handOvers := s1.handOvers + 1), w))
      && (w != 0 && !(key != 0 && key == Opposite(w)) ==>
            Serve(starts, before) == HandOff(starts, if Choice(before) < |s.waiting| then s.(waiting := s.waiting[Choice(before) := key]) else s, w))
  {
    hide HandOff;
    var j := Choice(before);
    if j < |before.waiting| {
      assert before.waiting[j := 0][j := key] == before.waiting;
    }
  }

  lemma RoundGoesOn(starts: seq<nat>, s: Road)
    requires Starts(starts) && Inv(starts, s) && !AllFinished(Arrive(starts, s))
    ensures CanRound(starts, s)
  {
    ArriveKeeps(starts, s);
  }

  lemma InvShape(starts: seq<nat>, s: Road)
    requires Starts(starts) && Inv(starts, s)
    ensures Shape(s)
  {
  }

  lemma LeftIsNatural(starts: seq<nat>, s: Road)
    requires Starts(starts) && Inv(starts, s)
    ensures Left(starts, s) >= 0
  {
    Sums(starts, s);
  }

  lemma AllPassed(starts: seq<nat>, s: Road)
    requires Starts(starts) && Inv(starts, s) && AllFinished(Arrive(starts, s))
    ensures |s.passed| == 4 && forall d | IsStart(d) :: s.passed[d - 1] == Count(starts, d)
  {
    ArriveKeeps(starts, s);
    hide Arrive, Count;
    forall d | IsStart(d) ensures s.passed[d - 1] == Count(starts, d) {
      assert Tally(starts, s, d, OnRoad(s), 0);
    }
  }
}
