/** Deferreds that wait for one another: which of them stay paused for ever. */
module WaitChains {
  import opened Basics
  import opened Deferreds
  import opened DeferredSystems

  type Act = DeferredSystems.Act

  /** The Deferred at whose chain d has its continuation. */
  function Awaited(system: System, d: nat): Option<nat> {
    if d < |system| && !system[d].lost then system[d].state.awaiting else None
  }

  /** The Deferred that following the waiting from d comes to after k steps. */
  function Follow(system: System, d: nat, k: nat): Option<nat> {
    if k == 0 then Some(d)
    else
      match Follow(system, d, k - 1)
      case None => None
      case Some(e) => Awaited(system, e)
  }

  ghost predicate LostAt(system: System, d: nat, k: nat) {
    var e := Follow(system, d, k);
    e.Some? && e.value < |system| && system[e.value].lost
  }

  ghost predicate RepeatsAt(system: System, d: nat, i: nat, j: nat) {
    i < j && Follow(system, d, i).Some? && Follow(system, d, i) == Follow(system, d, j)
  }

  ghost predicate ComesToLost(system: System, d: nat) {
    exists k: nat :: LostAt(system, d, k)
  }

  ghost predicate Repeats(system: System, d: nat) {
    exists i: nat, j: nat :: RepeatsAt(system, d, i, j)
  }

  /** Following the waiting from d comes to a Deferred without a continuation, or to one a
      second time. */
  ghost predicate Blocked(system: System, d: nat) {
    ComesToLost(system, d) || Repeats(system, d)
  }

  lemma {:induction false} FollowNext(system: System, d: nat, k: nat)
    requires Awaited(system, d).Some?
    ensures Follow(system, d, k + 1) == Follow(system, Awaited(system, d).value, k)
  {
    if k > 0 {
      FollowNext(system, d, k - 1);
    }
  }

  lemma LostNext(system: System, d: nat)
    requires Awaited(system, d).Some?
    ensures ComesToLost(system, d) <==> ComesToLost(system, Awaited(system, d).value)
  {
    var e := Awaited(system, d).value;
    if ComesToLost(system, d) {
      var k: nat :| LostAt(system, d, k);
      assert k > 0;
      FollowNext(system, d, k - 1);
      assert LostAt(system, e, k - 1);
    }
    if ComesToLost(system, e) {
      var k: nat :| LostAt(system, e, k);
      FollowNext(system, d, k);
      assert LostAt(system, d, k + 1);
    }
  }

  lemma RepeatsNext(system: System, d: nat)
    requires Awaited(system, d).Some?
    ensures Repeats(system, d) <==> Repeats(system, Awaited(system, d).value)
  {
    var e := Awaited(system, d).value;
    if Repeats(system, d) {
      var i: nat, j: nat :| RepeatsAt(system, d, i, j);
      FollowNext(system, d, j - 1);
      if i > 0 {
        FollowNext(system, d, i - 1);
        assert RepeatsAt(system, e, i - 1, j - 1);
      } else {
        assert RepeatsAt(system, e, 0, j);
      }
    }
    if Repeats(system, e) {
      var i: nat, j: nat :| RepeatsAt(system, e, i, j);
      FollowNext(system, d, i);
      FollowNext(system, d, j);
      assert RepeatsAt(system, d, i + 1, j + 1);
    }
  }

  /** A blocked Deferred is lost or waits for a blocked one. */
  lemma BlockedNext(system: System, d: nat)
    requires Inv(system)
    ensures Blocked(system, d) <==>
      d < |system| && system[d].state.awaiting.Some?
      && (system[d].lost || Blocked(system, system[d].state.awaiting.value))
  {
    if Awaited(system, d).Some? {
      LostNext(system, d);
      RepeatsNext(system, d);
    } else if d < |system| && system[d].lost {
      assert NodeOk(system[d]);
      assert LostAt(system, d, 0);
    } else {
      NoneFollows(system, d);
    }
  }

  lemma NoneFollows(system: System, d: nat)
    requires Awaited(system, d).None? && !(d < |system| && system[d].lost)
    ensures !Blocked(system, d)
  {
    forall k: nat ensures k > 0 ==> Follow(system, d, k).None? {
      FollowEnds(system, d, k);
    }
  }

  lemma {:induction false} FollowEnds(system: System, d: nat, k: nat)
    requires Awaited(system, d).None?
    ensures k > 0 ==> Follow(system, d, k).None?
  {
    if k > 1 {
      FollowEnds(system, d, k - 1);
    }
  }

  // ---- blocked for ever ----

  /** No step moves a blocked Deferred. */
  lemma BlockedStays(system: System, a: Act, d: nat)
    requires Inv(system) && Enabled(system, a) && Blocked(system, d)
    ensures d < |system|
    ensures var was, next := system[d], StepSystem(system, a)[d];
      next.state.awaiting == was.state.awaiting && next.lost == was.lost && was.state.chain <= next.state.chain
  {
    BlockedNext(system, d);
    assert NodeOk(system[d]);
    if a == Deliver(d) {
      BlockedNext(system, system[d].state.awaiting.value);
      assert false;
    }
    StepFlags(system, a, d);
    MovedStays(system, a);
  }

  lemma {:induction false} FollowStays(system: System, a: Act, d: nat, k: nat)
    requires Inv(system) && Enabled(system, a) && Blocked(system, d)
    ensures var e := Follow(system, d, k);
      Follow(StepSystem(system, a), d, k) == e && (e.Some? ==> Blocked(system, e.value))
  {
    if k > 0 {
      FollowStays(system, a, d, k - 1);
      var e := Follow(system, d, k - 1);
      if e.Some? {
        BlockedStays(system, a, e.value);
        BlockedNext(system, e.value);
      }
    }
  }

  lemma StepBlocked(system: System, a: Act, d: nat)
    requires Inv(system) && Enabled(system, a) && Blocked(system, d)
    ensures Blocked(StepSystem(system, a), d)
  {
    var next := StepSystem(system, a);
    if k: nat :| LostAt(system, d, k) {
      FollowStays(system, a, d, k);
      BlockedStays(system, a, Follow(system, d, k).value);
      assert LostAt(next, d, k);
    } else {
      var i: nat, j: nat :| RepeatsAt(system, d, i, j);
      FollowStays(system, a, d, i);
      FollowStays(system, a, d, j);
      assert RepeatsAt(next, d, i, j);
    }
  }

  /** A blocked Deferred stays blocked and paused however the run goes on, and the pairs it
      had left are never reached. */
  lemma {:induction false} BlockedForEver(n: nat, acts: seq<Act>, k: nat, d: nat)
    requires Legal(n, acts) && k <= |acts| && Legal(n, acts[..k]) && Blocked(RunSystem(n, acts[..k]), d)
    ensures Blocked(RunSystem(n, acts), d) && d < n
    ensures var was, node := RunSystem(n, acts[..k])[d], RunSystem(n, acts)[d];
      node.state.paused == 1 && !Settled(node) && was.state.chain <= node.state.chain
    decreases |acts|
  {
    if k < |acts| {
      var before, a := acts[..|acts| - 1], acts[|acts| - 1];
      assert before[..k] == acts[..k];
      BlockedForEver(n, before, k, d);
      RunInv(n, before);
      StepBlocked(RunSystem(n, before), a, d);
      BlockedStays(RunSystem(n, before), a, d);
    } else {
      assert acts[..k] == acts;
    }
    RunInv(n, acts);
    BlockedNext(RunSystem(n, acts), d);
    assert NodeOk(RunSystem(n, acts)[d]);
  }

  // ---- where the waiting ends ----

  /** After k steps the waiting comes to a Deferred that does not wait. */
  ghost predicate EndsAt(system: System, d: nat, k: nat) {
    var e := Follow(system, d, k);
    e.Some? && e.value < |system| && system[e.value].state.awaiting.None?
  }

  ghost predicate Ends(system: System, d: nat) {
    exists k: nat :: EndsAt(system, d, k)
  }

  /** Where numbers below n stand, none twice, there are at most n. */
  lemma {:induction false} Distinct(s: seq<nat>, n: nat)
    requires forall i :: 0 <= i < |s| ==> s[i] < n
    requires forall i, j :: 0 <= i < j < |s| ==> s[i] != s[j]
    ensures |s| <= n
  {
    DistinctSize(s);
    Within(Elements(s), UpTo(n));
  }

  function Elements(s: seq<nat>): (all: set<nat>)
    ensures forall x :: x in all <==> x in s
  {
    if s == [] then {} else Elements(s[..|s| - 1]) + {s[|s| - 1]}
  }

  lemma {:induction false} DistinctSize(s: seq<nat>)
    requires forall i, j :: 0 <= i < j < |s| ==> s[i] != s[j]
    ensures |Elements(s)| == |s|
  {
    if s != [] {
      DistinctSize(s[..|s| - 1]);
    }
  }

  lemma Within(a: set<nat>, b: set<nat>)
    requires a <= b
    ensures |a| <= |b|
  {
    assert b == a + (b - a);
  }

  lemma {:induction false} FollowsOn(system: System, d: nat, k: nat)
    requires Inv(system) && d < |system| && !Ends(system, d) && !ComesToLost(system, d)
    ensures Follow(system, d, k).Some? && Follow(system, d, k).value < |system|
  {
    if k > 0 {
      FollowsOn(system, d, k - 1);
      var e := Follow(system, d, k - 1).value;
      assert !EndsAt(system, d, k - 1) && !LostAt(system, d, k - 1);
      assert WaitOk(system, e);
    }
  }

  lemma {:induction false} BlockedEndless(system: System, d: nat, k: nat)
    requires Inv(system) && Blocked(system, d)
    ensures !EndsAt(system, d, k)
    ensures var e := Follow(system, d, k); e.Some? ==> Blocked(system, e.value)
  {
    if k > 0 {
      BlockedEndless(system, d, k - 1);
    }
    var e := if k > 0 then Follow(system, d, k - 1) else None;
    if e.Some? {
      BlockedNext(system, e.value);
    }
    if Follow(system, d, k).Some? {
      BlockedNext(system, Follow(system, d, k).value);
    }
  }

  /** The waiting of every Deferred ends, unless the Deferred is blocked. */
  lemma EndsIff(system: System, d: nat)
    requires Inv(system) && d < |system|
    ensures Ends(system, d) <==> !Blocked(system, d)
  {
    if Blocked(system, d) {
      forall k: nat ensures !EndsAt(system, d, k) {
        BlockedEndless(system, d, k);
      }
    }
    if !Ends(system, d) && !ComesToLost(system, d) {
      var n := |system|;
      forall k: nat ensures Follow(system, d, k).Some? && Follow(system, d, k).value < n {
        FollowsOn(system, d, k);
      }
      var s := seq(n + 1, k requires 0 <= k <= n => Follow(system, d, k).value);
      if forall i, j :: 0 <= i < j < |s| ==> s[i] != s[j] {
        Distinct(s, n);
        assert false;
      }
      var i, j :| 0 <= i < j < |s| && s[i] == s[j];
      assert RepeatsAt(system, d, i, j);
    }
  }

  /** Whoever waits for a settled one has been resumed. */
  ghost predicate Quiet(system: System) {
    forall d: nat {:trigger CanDeliver(system, Deliver(d))} :: d < |system| ==> !CanDeliver(system, Deliver(d))
  }

  /** After k steps the waiting comes to a Deferred that has not fired. */
  ghost predicate UnfiredAt(system: System, d: nat, k: nat) {
    EndsAt(system, d, k) && system[Follow(system, d, k).value].state.fired == -1
  }

  ghost predicate WaitsForUnfired(system: System, d: nat) {
    exists k: nat :: UnfiredAt(system, d, k)
  }

  lemma {:induction false} QuietWaits(system: System, d: nat, k: nat)
    requires Inv(system) && Quiet(system) && d < |system| && !Settled(system[d])
    ensures EndsAt(system, d, k) ==> UnfiredAt(system, d, k)
    ensures var e := Follow(system, d, k); e.Some? ==> e.value < |system| && !Settled(system[e.value])
  {
    if k == 0 {
      assert NodeOk(system[d]);
    } else {
      QuietWaits(system, d, k - 1);
      var e := Follow(system, d, k - 1);
      if e.Some? && Awaited(system, e.value).Some? {
        assert WaitOk(system, e.value) && !CanDeliver(system, Deliver(e.value));
        assert NodeOk(system[Awaited(system, e.value).value]);
      }
    }
  }

  lemma {:induction false} UnfiredUnsettled(system: System, d: nat, k: nat)
    requires Inv(system) && d < |system| && Follow(system, d, k).Some?
    ensures k > 0 ==> system[d].state.awaiting.Some? && !Settled(system[d])
  {
    assert NodeOk(system[d]);
    if Awaited(system, d).None? {
      FollowEnds(system, d, k);
    }
  }

  /** When nothing is left to resume, a Deferred has no result exactly if it is blocked or its
      waiting ends at one that has not fired. */
  lemma UnsettledIff(n: nat, acts: seq<Act>, d: nat)
    requires Legal(n, acts) && Quiet(RunSystem(n, acts)) && d < n
    ensures var system := RunSystem(n, acts);
      !Settled(system[d]) <==> Blocked(system, d) || WaitsForUnfired(system, d)
  {
    var system := RunSystem(n, acts);
    RunInv(n, acts);
    assert NodeOk(system[d]);
    BlockedNext(system, d);
    EndsIff(system, d);
    if !Settled(system[d]) && Ends(system, d) {
      var k: nat :| EndsAt(system, d, k);
      QuietWaits(system, d, k);
    }
    if k: nat :| UnfiredAt(system, d, k) {
      UnfiredUnsettled(system, d, k);
    }
  }

  /** So once all have fired, exactly the blocked ones have no result. */
  lemma BlockedIff(n: nat, acts: seq<Act>, d: nat)
    requires Legal(n, acts) && Quiet(RunSystem(n, acts)) && d < n
    requires forall id: nat {:trigger RunSystem(n, acts)[id]} :: id < n ==> RunSystem(n, acts)[id].state.fired != -1
    ensures !Settled(RunSystem(n, acts)[d]) <==> Blocked(RunSystem(n, acts), d)
  {
    UnsettledIff(n, acts, d);
  }

  // ---- resuming comes to an end ----

  function NodeWork(node: Node): nat {
    |node.state.chain| + if node.state.awaiting.Some? then 1 else 0
  }

  /** The pairs left over and the Deferreds that wait. */
  function Work(system: System): nat {
    if system == [] then 0 else Work(system[..|system| - 1]) + NodeWork(system[|system| - 1])
  }

  lemma {:induction false} WorkFalls(system: System, next: System, d: nat)
    requires |next| == |system| && d < |system| && NodeWork(next[d]) < NodeWork(system[d])
    requires forall id: nat {:trigger system[id]} :: id < |system| && id != d ==>
      NodeWork(next[id]) == NodeWork(system[id])
    ensures Work(next) < Work(system)
    decreases |system|
  {
    var init, nextInit := system[..|system| - 1], next[..|next| - 1];
    if d < |init| {
      WorkFalls(init, nextInit, d);
    } else {
      WorkStays(init, nextInit);
    }
  }

  lemma {:induction false} WorkStays(system: System, next: System)
    requires |next| == |system|
    requires forall id: nat {:trigger system[id]} :: id < |system| ==> NodeWork(next[id]) == NodeWork(system[id])
    ensures Work(next) == Work(system)
    decreases |system|
  {
    if system != [] {
      WorkStays(system[..|system| - 1], next[..|next| - 1]);
    }
  }

  /** Every resumption uses up work, so only finitely many follow one another. */
  lemma DeliverShrinks(system: System, d: nat)
    requires Inv(system) && Enabled(system, Deliver(d))
    ensures Work(StepSystem(system, Deliver(d))) < Work(system)
  {
    var next := StepSystem(system, Deliver(d));
    forall id: nat {:trigger system[id]} | id < |system|
      ensures id != d ==> NodeWork(next[id]) == NodeWork(system[id])
      ensures id == d ==> NodeWork(next[id]) < NodeWork(system[id])
    {
      StepFlags(system, Deliver(d), id);
      if id == d {
        var v := ResultOf(system[system[d].state.awaiting.value]);
        DrainFolds(system[d].state.chain, v, Giving(v));
      }
    }
    WorkFalls(system, next, d);
  }

  // ---- both ways of being blocked ----

  /** A callback that returns a Deferred. */
  function Returning(id: nat): Pair {
    Pair(Some(_ => ReturnsDeferred(id)), None)
  }

  /** A pair that returns Deferred id is added to d, which is then fired. */
  function FireInto(d: nat, id: nat): seq<Act> {
    [On(d, AddCallbacks(Returning(id))), On(d, CallbackWith(Plain(1)))]
  }

  /** A new Deferred after that. */
  function Fired(id: nat): Node {
    FRESH.(state := State([], 0, 1, (Inner(id), Null), Some(id)), registered := [Returning(id)],
           start := Some(Plain(1)))
  }

  lemma OneMore(n: nat, acts: seq<Act>, a: Act)
    requires Legal(n, acts) && Enabled(RunSystem(n, acts), a)
    ensures Legal(n, acts + [a]) && RunSystem(n, acts + [a]) == StepSystem(RunSystem(n, acts), a)
  {
    assert (acts + [a])[..|acts + [a]| - 1] == acts;
  }

  function Added(id: nat): Node {
    FRESH.(state := INITIAL.(chain := [Returning(id)]), registered := [Returning(id)])
  }

  lemma DrainInto(id: nat)
    ensures Drain([Returning(id)], Plain(1)) == ([], Inner(id))
  {
    assert [Returning(id)][1..] == [];
    assert Returning(id).cb.value(Plain(1)) == ReturnsDeferred(id);
  }

  lemma FiredState(id: nat)
    ensures Resback(Added(id).state, Plain(1)) == Fired(id).state
  {
    DrainInto(id);
  }

  lemma AddMoves(system: System, d: nat, id: nat)
    requires d < |system| && system[d] == FRESH
    ensures Enabled(system, On(d, AddCallbacks(Returning(id))))
    ensures StepSystem(system, On(d, AddCallbacks(Returning(id)))) == system[d := Added(id)]
  {
    assert [] + [Returning(id)] == [Returning(id)];
    assert Moved(system, On(d, AddCallbacks(Returning(id)))) == Added(id);
  }

  lemma FireMoves(system: System, d: nat, id: nat)
    requires d < |system| && id < |system| && system[d] == Added(id)
    ensures Enabled(system, On(d, CallbackWith(Plain(1))))
    ensures StepSystem(system, On(d, CallbackWith(Plain(1)))) == Await(system[d := Fired(id)], d)
  {
    FiredState(id);
    assert Moved(system, On(d, CallbackWith(Plain(1)))) == Fired(id);
  }

  lemma FireIntoRuns(n: nat, acts: seq<Act>, d: nat, id: nat)
    requires Legal(n, acts) && d < n && id < n && RunSystem(n, acts)[d] == FRESH
    ensures Legal(n, acts + FireInto(d, id))
    ensures RunSystem(n, acts + FireInto(d, id)) == Await(RunSystem(n, acts)[d := Fired(id)], d)
  {
    var system := RunSystem(n, acts);
    var a, b := On(d, AddCallbacks(Returning(id))), On(d, CallbackWith(Plain(1)));
    AddMoves(system, d, id);
    OneMore(n, acts, a);
    FireMoves(system[d := Added(id)], d, id);
    OneMore(n, acts + [a], b);
    assert system[d := Added(id)][d := Fired(id)] == system[d := Fired(id)];
    assert acts + FireInto(d, id) == acts + [a] + [b];
  }

  /** A Deferred whose callback returns the Deferred itself waits for itself. */
  lemma SelfBlocked()
    ensures Legal(1, FireInto(0, 0))
    ensures Repeats(RunSystem(1, FireInto(0, 0)), 0) && !ComesToLost(RunSystem(1, FireInto(0, 0)), 0)
  {
    FireIntoRuns(1, [], 0, 0);
    assert [] + FireInto(0, 0) == FireInto(0, 0);
    var system := RunSystem(1, FireInto(0, 0));
    assert Follow(system, 0, 0) == Some(0) && Follow(system, 0, 1) == Awaited(system, 0) == Some(0);
    assert RepeatsAt(system, 0, 0, 1);
  }

  /** Of two Deferreds whose callbacks return the same unfired one, the second is lost. */
  lemma SecondLost()
    ensures Legal(3, FireInto(0, 2) + FireInto(1, 2))
    ensures var system := RunSystem(3, FireInto(0, 2) + FireInto(1, 2));
      ComesToLost(system, 1) && !Repeats(system, 1) && !Blocked(system, 0)
  {
    FireIntoRuns(3, [], 0, 2);
    assert [] + FireInto(0, 2) == FireInto(0, 2);
    FireIntoRuns(3, FireInto(0, 2), 1, 2);
    var system := RunSystem(3, FireInto(0, 2) + FireInto(1, 2));
    assert LostAt(system, 1, 0);
    FollowEnds(system, 1, 1);
    RunInv(3, FireInto(0, 2) + FireInto(1, 2));
    assert Awaited(system, 1).None?;
    forall j: nat ensures j > 0 ==> Follow(system, 1, j).None? {
      FollowEnds(system, 1, j);
    }
    NoneFollows(system, 2);
    BlockedNext(system, 0);
  }
}
