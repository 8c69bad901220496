/** Several Deferreds whose callbacks return one another: what an awaited Deferred finally
    gives is its own fold, and a Deferred whose callback returns one that is chained already
    is never resumed. */
module DeferredSystems {
  import opened Basics
  import opened Deferreds

  /** One Deferred with its history: the pairs registered, what it was fired with, whether a
      continuation is at the end of its chain (`awaited`), the flag `chained`, whether its
      own pause has no continuation (`lost`), and the value it passed on. */
  datatype Node = Node(
    state: State,
    registered: seq<Pair>,
    start: Option<Value>,
    awaited: bool,
    chained: bool,
    lost: bool,
    delivered: Option<Value>)

  type System = seq<Node>

  const FRESH := Node(INITIAL, [], None, false, false, false, None)

  predicate Settled(node: Node) {
    node.state.fired >= 0 && node.state.paused == 0 && GetResult(node.state.results, node.state.fired).Val?
  }

  function ResultOf(node: Node): Value
    requires Settled(node)
  {
    GetResult(node.state.results, node.state.fired).value
  }

  /** Something a program does with Deferred d; the Deferred awaited by d reaching the
      continuation at the end of its chain; or the `addBoth` that put a continuation on d
      returning, after which d is marked as chained. */
  datatype Act = On(d: nat, event: Event) | Deliver(d: nat) | Mark(d: nat)

  /** The awaited Deferred's value, under any other valuation of the rest. */
  function Giving(v: Value): nat -> Value { _ => v }

  /** What becomes of the acting Deferred alone. Once a continuation is on its chain it gets
      no more pairs: it is marked as chained before the program goes on. */
  function Moved(system: System, a: Act): (node: Node)
    requires a.d < |system| && Sound(system[a.d].state) && CanDeliver(system, a)
  {
    var node := system[a.d];
    match a
    case On(_, e) =>
      if e.AddCallbacks? && node.awaited then node
      else node.(state := Step(node.state, e, Giving(Plain(0))),
                 registered := RegisteredAfter(node.registered, e),
                 start := StartAfter(node.start, e))
    case Deliver(_) =>
      node.(state := Step(node.state, InnerFires, Giving(ResultOf(system[node.state.awaiting.value]))))
    case Mark(_) => node.(chained := true)
  }

  predicate CanDeliver(system: System, a: Act)
    requires a.d < |system|
  {
    match a
    case On(_, e) => !e.InnerFires?
    case Deliver(d) =>
      var awaiting := system[d].state.awaiting;
      awaiting.Some? && !system[d].lost && awaiting.value < |system| && Settled(system[awaiting.value])
    case Mark(d) => system[d].awaited
  }

  /** Callbacks return Deferreds of the system. */
  predicate Enabled(system: System, a: Act) {
    && a.d < |system| && Sound(system[a.d].state) && CanDeliver(system, a)
    && var awaiting := Moved(system, a).state.awaiting; awaiting.Some? ==> awaiting.value < |system|
  }

  /** `addBoth` on the Deferred that d has begun to await: refused with an exception, which
      leaves d paused, when that one is chained already. When that one is still unsettled,
      `addBoth` returns at once; else it first runs the continuation. */
  function Await(system: System, d: nat): System
    requires d < |system| && system[d].state.awaiting.Some? && system[d].state.awaiting.value < |system|
  {
    var id := system[d].state.awaiting.value;
    if system[id].chained then system[d := system[d].(lost := true)]
    else system[id := system[id].(awaited := true, chained := !Settled(system[id]))]
  }

  function Passed(system: System, a: Act): System
    requires a.d < |system| && CanDeliver(system, a)
  {
    if !a.Deliver? then system
    else
      var id := system[a.d].state.awaiting.value;
      system[id := system[id].(delivered := Some(ResultOf(system[id])))]
  }

  function StepSystem(system: System, a: Act): (next: System)
    requires Enabled(system, a)
    ensures |next| == |system|
  {
    var node, passed := Moved(system, a), Passed(system, a);
    var next := passed[a.d := node];
    if node.state.awaiting.Some? && (a.Deliver? || system[a.d].state.awaiting.None?) then Await(next, a.d)
    else next
  }

  predicate Legal(n: nat, acts: seq<Act>)
    decreases |acts|, 0
  {
    acts == [] || (Legal(n, acts[..|acts| - 1]) && Enabled(RunSystem(n, acts[..|acts| - 1]), acts[|acts| - 1]))
  }

  function RunSystem(n: nat, acts: seq<Act>): (system: System)
    requires Legal(n, acts)
    ensures |system| == n
    decreases |acts|, 1
  {
    if acts == [] then seq(n, _ => FRESH) else StepSystem(RunSystem(n, acts[..|acts| - 1]), acts[|acts| - 1])
  }

  // ---- what every run keeps ----

  /** What a Deferred has passed on was its settled result, and it stays that. */
  ghost predicate NodeOk(node: Node) {
    && Sound(node.state)
    && (node.lost ==> node.state.awaiting.Some?)
    && (node.chained ==> node.awaited)
    && (node.delivered.Some? ==> node.awaited && Settled(node) && ResultOf(node) == node.delivered.value)
  }

  /** A Deferred waits with its continuation registered. */
  ghost predicate Waits(system: System, d: nat) {
    d < |system| && system[d].state.awaiting.Some? && !system[d].lost
  }

  ghost predicate WaitOk(system: System, d: nat) {
    Waits(system, d) ==>
      var id := system[d].state.awaiting.value;
      id < |system| && system[id].awaited
  }

  ghost predicate Inv(system: System) {
    && (forall d: nat {:trigger system[d]} :: d < |system| ==> NodeOk(system[d]))
    && (forall d: nat :: WaitOk(system, d))
  }

  ghost predicate NodeMeans(node: Node, final: nat -> Value) {
    Means(node.state, node.registered, node.start, final)
  }

  /** A valuation that knows what every Deferred will have passed on. */
  ghost predicate Knows(final: nat -> Value, system: System) {
    forall id: nat {:trigger system[id]} :: id < |system| && system[id].delivered.Some? ==>
      final(id) == system[id].delivered.value
  }

  /** Whether d begins to await another Deferred in this step. */
  predicate Begins(system: System, a: Act)
    requires Enabled(system, a)
  {
    Moved(system, a).state.awaiting.Some? && (a.Deliver? || system[a.d].state.awaiting.None?)
  }

  ghost predicate Target(system: System, a: Act, id: nat)
    requires Enabled(system, a)
  {
    Begins(system, a) && Moved(system, a).state.awaiting == Some(id)
  }

  ghost predicate Source(system: System, a: Act, id: nat)
    requires Enabled(system, a)
  {
    a.Deliver? && system[a.d].state.awaiting == Some(id)
  }

  /** What beginning to await does to one Deferred. */
  lemma AwaitFlags(system: System, d: nat, id: nat)
    requires d < |system| && system[d].state.awaiting.Some? && system[d].state.awaiting.value < |system|
    requires id < |system|
    ensures var was, next, target := system[id], Await(system, d)[id], system[d].state.awaiting.value;
      && next.state == was.state && next.delivered == was.delivered
      && next.awaited == (was.awaited || (id == target && !was.chained))
      && next.chained == (was.chained || (id == target && !Settled(was)))
      && next.lost == (was.lost || (id == d && system[target].chained))
  {
  }

  /** How the rest of one Deferred changes in a step. */
  lemma StepFlags(system: System, a: Act, id: nat)
    requires Enabled(system, a) && id < |system|
    ensures var was, next := system[id], StepSystem(system, a)[id];
      && next.delivered == (if Source(system, a, id) then Some(ResultOf(was)) else was.delivered)
      && next.awaited == (was.awaited || (Target(system, a, id) && !was.chained))
      && next.chained == (was.chained || a == Mark(id)
                          || (Target(system, a, id) && (id == a.d || !Settled(was))))
      && next.lost == (was.lost || (id == a.d && Begins(system, a)
                                    && system[Moved(system, a).state.awaiting.value].chained))
  {
    if Begins(system, a) {
      AwaitFlags(Passed(system, a)[a.d := Moved(system, a)], a.d, id);
    }
  }

  /** What was passed on is never taken back or passed on again. */
  lemma StepRemembers(system: System, a: Act, final: nat -> Value)
    requires Enabled(system, a) && Inv(system) && Knows(final, StepSystem(system, a))
    ensures Knows(final, system)
    ensures a.Deliver? ==>
      var id := system[a.d].state.awaiting.value; final(id) == ResultOf(system[id])
  {
    var next := StepSystem(system, a);
    forall id: nat {:trigger system[id]} | id < |system| && system[id].delivered.Some?
      ensures final(id) == system[id].delivered.value
    {
      StepFlags(system, a, id);
      assert NodeOk(system[id]);
      assert next[id].delivered == system[id].delivered;
    }
    if a.Deliver? {
      var id := system[a.d].state.awaiting.value;
      StepFlags(system, a, id);
      assert next[id].delivered.Some?;
    }
  }

  lemma DeliverUnder(s: State, v: Value, final: nat -> Value)
    requires Sound(s) && s.awaiting.Some? && final(s.awaiting.value) == v
    ensures Step(s, InnerFires, Giving(v)) == Step(s, InnerFires, final)
  {
  }

  /** The acting Deferred keeps its meaning under a valuation that knows what it is given. */
  lemma MovedMeans(system: System, a: Act, final: nat -> Value)
    requires Enabled(system, a) && NodeMeans(system[a.d], final)
    requires a.Deliver? ==>
      final(system[a.d].state.awaiting.value) == ResultOf(system[system[a.d].state.awaiting.value])
    ensures NodeMeans(Moved(system, a), final)
  {
    var node := system[a.d];
    match a
    case On(_, e) =>
      assert Step(node.state, e, Giving(Plain(0))) == Step(node.state, e, final);
      StepMeans(node.state, node.registered, node.start, e, final);
    case Deliver(_) =>
      DeliverUnder(node.state, ResultOf(system[node.state.awaiting.value]), final);
      StepMeans(node.state, node.registered, node.start, InnerFires, final);
    case Mark(_) =>
  }

  /** A settled, chained Deferred does not change any more; a waiting one waits on. */
  lemma MovedStays(system: System, a: Act)
    requires Enabled(system, a)
    ensures Sound(Moved(system, a).state)
    ensures system[a.d].awaited && Settled(system[a.d]) ==> Moved(system, a).state == system[a.d].state
    ensures !a.Deliver? && system[a.d].state.awaiting.Some? ==>
      Moved(system, a).state.awaiting == system[a.d].state.awaiting
  {
    var s := system[a.d].state;
    match a
    case On(_, e) => StepSound(s, e, Giving(Plain(0)));
    case Deliver(_) => StepSound(s, InnerFires, Giving(ResultOf(system[s.awaiting.value])));
    case Mark(_) =>
  }

  lemma StepNodeOk(system: System, a: Act, id: nat)
    requires Inv(system) && Enabled(system, a) && id < |system|
    ensures NodeOk(StepSystem(system, a)[id])
  {
    StepFlags(system, a, id);
    assert NodeOk(system[id]) && NodeOk(system[a.d]) && WaitOk(system, a.d);
    MovedStays(system, a);
  }

  lemma StepWaitOk(system: System, a: Act, d: nat)
    requires Inv(system) && Enabled(system, a)
    ensures WaitOk(StepSystem(system, a), d)
  {
    if Waits(StepSystem(system, a), d) {
      StepFlags(system, a, d);
      var id := StepSystem(system, a)[d].state.awaiting.value;
      assert WaitOk(system, d) && WaitOk(system, a.d) && NodeOk(system[a.d]);
      MovedStays(system, a);
      assert id < |system|;
      StepFlags(system, a, id);
      assert NodeOk(system[id]);
    }
  }

  lemma StepInv(system: System, a: Act)
    requires Inv(system) && Enabled(system, a)
    ensures Inv(StepSystem(system, a))
  {
    var next := StepSystem(system, a);
    forall id: nat {:trigger next[id]} | id < |next| ensures NodeOk(next[id]) {
      StepNodeOk(system, a, id);
    }
    forall d: nat ensures WaitOk(next, d) {
      StepWaitOk(system, a, d);
    }
  }

  lemma {:induction false} RunInv(n: nat, acts: seq<Act>)
    requires Legal(n, acts)
    ensures Inv(RunSystem(n, acts))
    decreases |acts|
  {
    if acts != [] {
      RunInv(n, acts[..|acts| - 1]);
      StepInv(RunSystem(n, acts[..|acts| - 1]), acts[|acts| - 1]);
    }
  }

  // ---- the meaning of a system ----

  /** Under a valuation that knows all that will be passed on, every Deferred has its
      meaning at every point of the run. */
  lemma {:induction false} RunNodeMeans(n: nat, acts: seq<Act>, final: nat -> Value, d: nat)
    requires Legal(n, acts) && Knows(final, RunSystem(n, acts)) && d < n
    ensures NodeMeans(RunSystem(n, acts)[d], final)
    decreases |acts|
  {
    if acts != [] {
      var before, a := acts[..|acts| - 1], acts[|acts| - 1];
      var system := RunSystem(n, before);
      RunInv(n, before);
      StepRemembers(system, a, final);
      RunNodeMeans(n, before, final, d);
      StepFlags(system, a, d);
      if d == a.d {
        MovedMeans(system, a, final);
      }
    }
  }

  /** The values that have been passed on. */
  function Valuation(system: System): nat -> Value {
    (id: nat) => if id < |system| && system[id].delivered.Some? then system[id].delivered.value else Plain(0)
  }

  /** Over every run of the system, one valuation makes sense of all Deferreds: a settled
      one holds the left fold of all its pairs; one that was awaited has passed on its own
      such fold; and the pairs not yet consumed are the last ones registered. */
  lemma SystemIsFold(n: nat, acts: seq<Act>, d: nat)
    requires Legal(n, acts) && d < n
    ensures var system := RunSystem(n, acts);
      var node, final := system[d], Valuation(system);
      && node.state.paused == (if node.state.awaiting.Some? then 1 else 0)
      && |node.state.chain| <= |node.registered|
      && node.state.chain == node.registered[|node.registered| - |node.state.chain|..]
      && (node.state.fired == -1 <==> node.start.None?)
      && (node.state.fired >= 0 && node.state.paused == 0 ==>
            var v := Fold(node.start.value, node.registered, final);
            node.state.chain == [] && Settled(node) && ResultOf(node) == v && node.state.fired == SideOf(v))
      && (node.delivered.Some? ==>
            node.start.Some? && final(d) == node.delivered.value == Fold(node.start.value, node.registered, final))
  {
    var system := RunSystem(n, acts);
    RunInv(n, acts);
    RunNodeMeans(n, acts, Valuation(system), d);
    assert NodeOk(system[d]);
  }

  // ---- a Deferred returned twice ----

  /** The act puts a continuation on Deferred id while that is unsettled, or is the return of
      the `addBoth` that put one there. */
  ghost predicate Chains(system: System, a: Act, id: nat) {
    && id < |system| && Enabled(system, a)
    && (a == Mark(id) || (Target(system, a, id) && (id == a.d || !Settled(system[id]))))
  }

  /** The chain of d comes to a Deferred that is chained already. */
  ghost predicate Loses(system: System, a: Act, d: nat) {
    && a.d == d && Enabled(system, a) && Begins(system, a)
    && system[Moved(system, a).state.awaiting.value].chained
  }

  ghost predicate ChainsAt(n: nat, acts: seq<Act>, k: nat, id: nat) {
    k < |acts| && Legal(n, acts[..k]) && Chains(RunSystem(n, acts[..k]), acts[k], id)
  }

  ghost predicate LosesAt(n: nat, acts: seq<Act>, k: nat, d: nat) {
    k < |acts| && Legal(n, acts[..k]) && Loses(RunSystem(n, acts[..k]), acts[k], d)
  }

  lemma AtBefore(n: nat, acts: seq<Act>, k: nat, d: nat)
    requires k < |acts| - 1
    ensures ChainsAt(n, acts, k, d) <==> ChainsAt(n, acts[..|acts| - 1], k, d)
    ensures LosesAt(n, acts, k, d) <==> LosesAt(n, acts[..|acts| - 1], k, d)
  {
    assert acts[..|acts| - 1][..k] == acts[..k];
  }

  lemma StepChained(system: System, a: Act, id: nat)
    requires Enabled(system, a) && id < |system|
    ensures StepSystem(system, a)[id].chained <==> system[id].chained || Chains(system, a, id)
    ensures StepSystem(system, a)[id].lost <==> system[id].lost || Loses(system, a, id)
  {
    StepFlags(system, a, id);
  }

  ghost predicate EverChained(n: nat, acts: seq<Act>, id: nat) {
    exists k: nat :: ChainsAt(n, acts, k, id)
  }

  ghost predicate EverLost(n: nat, acts: seq<Act>, d: nat) {
    exists k: nat :: LosesAt(n, acts, k, d)
  }

  lemma EverChainedStep(n: nat, acts: seq<Act>, id: nat)
    requires acts != []
    ensures EverChained(n, acts, id)
       <==> EverChained(n, acts[..|acts| - 1], id) || ChainsAt(n, acts, |acts| - 1, id)
  {
    var before := acts[..|acts| - 1];
    if EverChained(n, acts, id) {
      var k: nat :| ChainsAt(n, acts, k, id);
      if k < |before| {
        AtBefore(n, acts, k, id);
      }
    }
    if EverChained(n, before, id) {
      var k: nat :| ChainsAt(n, before, k, id);
      AtBefore(n, acts, k, id);
    }
  }

  lemma EverLostStep(n: nat, acts: seq<Act>, d: nat)
    requires acts != []
    ensures EverLost(n, acts, d) <==> EverLost(n, acts[..|acts| - 1], d) || LosesAt(n, acts, |acts| - 1, d)
  {
    var before := acts[..|acts| - 1];
    if EverLost(n, acts, d) {
      var k: nat :| LosesAt(n, acts, k, d);
      if k < |before| {
        AtBefore(n, acts, k, d);
      }
    }
    if EverLost(n, before, d) {
      var k: nat :| LosesAt(n, before, k, d);
      AtBefore(n, acts, k, d);
    }
  }

  /** A Deferred is chained exactly after an act that chained it, and has lost its own
      continuation exactly after its chain came to one that was chained already. */
  lemma {:induction false} LostIff(n: nat, acts: seq<Act>, d: nat)
    requires Legal(n, acts) && d < n
    ensures RunSystem(n, acts)[d].chained <==> EverChained(n, acts, d)
    ensures RunSystem(n, acts)[d].lost <==> EverLost(n, acts, d)
    decreases |acts|
  {
    if acts != [] {
      var before, a := acts[..|acts| - 1], acts[|acts| - 1];
      LostIff(n, before, d);
      EverChainedStep(n, acts, d);
      EverLostStep(n, acts, d);
      StepChained(RunSystem(n, before), a, d);
    }
  }

  lemma LostStep(system: System, a: Act, d: nat)
    requires Inv(system) && Enabled(system, a) && d < |system| && system[d].lost
    ensures var next := StepSystem(system, a);
      next[d].lost && next[d].state.awaiting == system[d].state.awaiting && system[d].state.chain <= next[d].state.chain
  {
    StepFlags(system, a, d);
    assert NodeOk(system[d]);
  }

  /** Then it stays paused however the run goes on, and the pairs it had left are never
      reached. */
  lemma {:induction false} LostForEver(n: nat, acts: seq<Act>, k: nat, d: nat)
    requires Legal(n, acts) && k <= |acts| && Legal(n, acts[..k]) && d < n && RunSystem(n, acts[..k])[d].lost
    ensures var was, node := RunSystem(n, acts[..k])[d], RunSystem(n, acts)[d];
      node.lost && node.state.paused == 1 && !Settled(node) && was.state.chain <= node.state.chain
    decreases |acts|
  {
    RunInv(n, acts);
    assert NodeOk(RunSystem(n, acts)[d]);
    if k < |acts| {
      var before := acts[..|acts| - 1];
      assert before[..k] == acts[..k];
      LostForEver(n, before, k, d);
      RunInv(n, before);
      LostStep(RunSystem(n, before), acts[|acts| - 1], d);
    } else {
      assert acts[..k] == acts;
    }
  }
}
