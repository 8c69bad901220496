/** `MochiKit.Async.Deferred`: a result that is passed through a chain of callback
    pairs, stopping while a callback's own Deferred is awaited. */
module Deferreds {
  import opened Basics

  /** A value, an `Error`, the GenericError that wraps anything else thrown, or one of the
      module's own errors. */
  datatype Value =
    | Plain(data: int)
    | Error(message: int)
    | GenericError(thrown: int)
    | AlreadyCalledError
    | CancelledError

  predicate IsError(v: Value) { !v.Plain? }

  function AsError(v: Value): Value {
    if v.Plain? then GenericError(v.data) else v
  }

  /** What calling a callback gives: a value, an exception, or another Deferred. */
  datatype Outcome = Returns(value: Value) | Throws(value: Value) | ReturnsDeferred(id: nat)

  type Callback = Value -> Outcome

  datatype Pair = Pair(cb: Option<Callback>, eb: Option<Callback>)

  /** The content of a `results` slot. */
  datatype Slot = Null | Val(value: Value) | Inner(id: nat)

  // ---- what a Deferred means ----

  function SideFor(p: Pair, v: Value): Option<Callback> {
    if IsError(v) then p.eb else p.cb
  }

  /** One pair applied to a value; `final` gives the value an inner Deferred ends with. */
  function Apply(v: Value, p: Pair, final: nat -> Value): Value {
    match SideFor(p, v)
    case None => v
    case Some(f) =>
      match f(v)
      case Returns(w) => w
      case Throws(w) => AsError(w)
      case ReturnsDeferred(id) => final(id)
  }

  function Fold(v: Value, pairs: seq<Pair>, final: nat -> Value): Value {
    if pairs == [] then v else Apply(Fold(v, pairs[..|pairs| - 1], final), pairs[|pairs| - 1], final)
  }

  // ---- the machine ----

  /** `awaiting` is the inner Deferred on which the continuation is registered. */
  datatype State = State(
    chain: seq<Pair>,
    fired: int,
    paused: int,
    results: (Slot, Slot),
    awaiting: Option<nat>)

  const INITIAL := State([], -1, 0, (Null, Null), None)

  function SetResult(results: (Slot, Slot), side: int, slot: Slot): (Slot, Slot) {
    if side == 0 then (slot, results.1) else (results.0, slot)
  }

  function GetResult(results: (Slot, Slot), side: int): Slot {
    if side == 0 then results.0 else results.1
  }

  function SideOf(v: Value): int { if IsError(v) then 1 else 0 }

  predicate OnItsSide(results: (Slot, Slot), side: int) {
    GetResult(results, side).Val? && side == SideOf(GetResult(results, side).value)
  }

  /** The loop of `_fire` from a current value on: the pairs left over, and the value
      or the inner Deferred it ended with. */
  function Drain(chain: seq<Pair>, v: Value): (seq<Pair>, Slot)
    decreases |chain|
  {
    if chain == [] then ([], Val(v))
    else
      match SideFor(chain[0], v)
      case None => Drain(chain[1..], v)
      case Some(f) =>
        match f(v)
        case Returns(w) => Drain(chain[1..], w)
        case Throws(w) => Drain(chain[1..], AsError(w))
        case ReturnsDeferred(id) => (chain[1..], Inner(id))
  }

  /** `_fire`. */
  function Fire(s: State): State
    requires s.fired == 0 || s.fired == 1
    requires s.paused == 0 ==> OnItsSide(s.results, s.fired)
  {
    if s.paused != 0 then s
    else
      var end := Drain(s.chain, GetResult(s.results, s.fired).value);
      match end.1
      case Inner(id) => State(end.0, 0, 1, SetResult(s.results, 0, end.1), Some(id))
      case _ =>
        var side := if end.1.Val? then SideOf(end.1.value) else 0;
        State(end.0, side, 0, SetResult(s.results, side, end.1), s.awaiting)
  }

  /** `_resback`. */
  function Resback(s: State, v: Value): State {
    Fire(s.(fired := SideOf(v), results := SetResult(s.results, SideOf(v), Val(v))))
  }

  /** `_unpause`. */
  function Unpause(s: State): State
    requires s.paused == 1
    requires s.fired >= 0 ==> s.fired <= 1 && OnItsSide(s.results, s.fired)
  {
    var s' := s.(paused := 0);
    if s'.fired >= 0 then Fire(s') else s'
  }

  datatype Event =
    | AddCallbacks(pair: Pair)
    | CallbackWith(value: Value)   // callback(res)
    | ErrbackWith(value: Value)    // errback(res)
    | InnerFires                   // the awaited Deferred reaches the continuation

  /** What happens at one event. A second `callback` or `errback` throws
      AlreadyCalledError and changes nothing. */
  function Step(s: State, e: Event, final: nat -> Value): State
    requires Sound(s)
  {
    match e
    case AddCallbacks(pair) =>
      var s' := s.(chain := s.chain + [pair]);
      if s.fired >= 0 then Fire(s') else s'
    case CallbackWith(v) => if s.fired != -1 then s else Resback(s, v)
    case ErrbackWith(v) => if s.fired != -1 then s else Resback(s, AsError(v))
    case InnerFires =>
      if s.awaiting.None? then s
      else Unpause(Resback(s.(awaiting := None), final(s.awaiting.value)))
  }

  /** The shape every reachable state has. */
  predicate Sound(s: State) {
    && -1 <= s.fired <= 1
    && s.paused == (if s.awaiting.Some? then 1 else 0)
    && (s.fired == -1 ==> s.awaiting.None?)
    && (s.fired >= 0 && s.awaiting.None? ==>
          s.chain == [] && GetResult(s.results, s.fired).Val? && s.fired == SideOf(GetResult(s.results, s.fired).value))
  }

  lemma {:induction false} FoldAppend(v: Value, a: seq<Pair>, b: seq<Pair>, final: nat -> Value)
    ensures Fold(v, a + b, final) == Fold(Fold(v, a, final), b, final)
    decreases |b|
  {
    if b == [] {
      assert a + b == a;
    } else {
      assert (a + b)[..|a + b| - 1] == a + b[..|b| - 1];
      FoldAppend(v, a, b[..|b| - 1], final);
    }
  }

  /** What one more pair makes of a result: a plain value goes to the callback and anything
      else to the errback, a missing one passes it on, and what is thrown is wrapped unless
      it is an error. */
  lemma FoldGoesOn(v: Value, pairs: seq<Pair>, p: Pair, final: nat -> Value)
    ensures Fold(v, [], final) == v
    ensures var w, x := Fold(v, pairs, final), Fold(v, pairs + [p], final);
      match (if w.Plain? then p.cb else p.eb)
      case None => x == w
      case Some(f) =>
        match f(w)
        case Returns(y) => x == y
        case Throws(Plain(data)) => x == GenericError(data)
        case Throws(error) => x == error
        case ReturnsDeferred(id) => x == final(id)
  {
    assert (pairs + [p])[..|pairs|] == pairs;
  }

  /** The fold of a prefix begins with its first pair. */
  lemma FoldFront(v: Value, chain: seq<Pair>, n: nat, final: nat -> Value)
    requires 0 < n <= |chain|
    ensures Fold(v, chain[..n], final) == Fold(Apply(v, chain[0], final), chain[1..][..n - 1], final)
  {
    assert chain[..n] == [chain[0]] + chain[1..][..n - 1];
    FoldAppend(v, [chain[0]], chain[1..][..n - 1], final);
    assert [chain[0]][..0] == [];
    assert Fold(v, [chain[0]], final) == Apply(Fold(v, [], final), chain[0], final);
  }

  /** Draining consumes pairs from the front, folding as it goes. */
  lemma {:induction false} DrainFolds(chain: seq<Pair>, v: Value, final: nat -> Value)
    ensures var end := Drain(chain, v);
      var n := |chain| - |end.0|;
      && 0 <= n && end.0 == chain[n..] && !end.1.Null?
      && (end.1.Val? ==> end.0 == [] && end.1.value == Fold(v, chain, final))
      && (end.1.Inner? ==> n > 0 && final(end.1.id) == Fold(v, chain[..n], final))
    decreases |chain|
  {
    if chain != [] {
      var w := Apply(v, chain[0], final);
      var f := SideFor(chain[0], v);
      if f.Some? && f.value(v).ReturnsDeferred? {
        FoldFront(v, chain, 1, final);
      } else {
        DrainFolds(chain[1..], w, final);
        FoldFront(v, chain, |chain| - |Drain(chain[1..], w).0|, final);
        assert chain[..|chain|] == chain && chain[1..][..|chain| - 1] == chain[1..];
      }
    }
  }

  /** The meaning of a state after the pairs `registered` and, if it has fired, the
      first value `start`: the pairs not in the chain have been folded. */
  ghost predicate Means(s: State, registered: seq<Pair>, start: Option<Value>, final: nat -> Value) {
    var n := |registered| - |s.chain|;
    && Sound(s)
    && 0 <= n && s.chain == registered[n..]
    && (start.None? <==> s.fired == -1)
    && (s.fired == -1 ==> n == 0)
    && (s.fired >= 0 && s.awaiting.None? ==> GetResult(s.results, s.fired) == Val(Fold(start.value, registered, final)))
    && (s.awaiting.Some? ==> n > 0 && final(s.awaiting.value) == Fold(start.value, registered[..n], final))
  }

  lemma FoldSlice(registered: seq<Pair>, m: nat, k: nat, start: Value, final: nat -> Value)
    requires m + k <= |registered|
    ensures registered[m..][k..] == registered[m + k..]
    ensures Fold(Fold(start, registered[..m], final), registered[m..][..k], final)
         == Fold(start, registered[..m + k], final)
  {
    FoldAppend(start, registered[..m], registered[m..][..k], final);
    assert registered[..m + k] == registered[..m] + registered[m..][..k];
  }

  /** Draining after a prefix has been folded goes on with the fold. */
  lemma DrainContinues(registered: seq<Pair>, m: nat, start: Value, final: nat -> Value)
    requires m <= |registered|
    ensures var end := Drain(registered[m..], Fold(start, registered[..m], final));
      var n := |registered| - |end.0|;
      && m <= n && end.0 == registered[n..] && !end.1.Null?
      && (end.1.Val? ==> end.0 == [] && end.1.value == Fold(start, registered, final))
      && (end.1.Inner? ==> n > 0 && final(end.1.id) == Fold(start, registered[..n], final))
  {
    var rest, v := registered[m..], Fold(start, registered[..m], final);
    DrainFolds(rest, v, final);
    var k := |rest| - |Drain(rest, v).0|;
    FoldSlice(registered, m, k, start, final);
    FoldSlice(registered, m, |rest|, start, final);
    assert rest[..|rest|] == rest && registered[..m + |rest|] == registered;
  }

  /** `_fire` on an unpaused state folds what is in the chain. */
  lemma FireMeans(s: State, registered: seq<Pair>, start: Value, final: nat -> Value)
    requires (s.fired == 0 || s.fired == 1) && s.paused == 0 && s.awaiting.None?
    requires GetResult(s.results, s.fired).Val? && s.fired == SideOf(GetResult(s.results, s.fired).value)
    requires |s.chain| <= |registered| && s.chain == registered[|registered| - |s.chain|..]
    requires GetResult(s.results, s.fired).value == Fold(start, registered[..|registered| - |s.chain|], final)
    ensures Means(Fire(s), registered, Some(start), final)
  {
    DrainContinues(registered, |registered| - |s.chain|, start, final);
  }

  function RegisteredAfter(registered: seq<Pair>, e: Event): seq<Pair> {
    if e.AddCallbacks? then registered + [e.pair] else registered
  }

  function StartAfter(start: Option<Value>, e: Event): Option<Value> {
    if start.Some? then start
    else if e.CallbackWith? then Some(e.value)
    else if e.ErrbackWith? then Some(AsError(e.value))
    else None
  }

  lemma StepMeans(s: State, registered: seq<Pair>, start: Option<Value>, e: Event, final: nat -> Value)
    requires Means(s, registered, start, final)
    ensures Means(Step(s, e, final), RegisteredAfter(registered, e), StartAfter(start, e), final)
  {
    var n := |registered| - |s.chain|;
    match e
    case AddCallbacks(pair) =>
      var more := registered + [pair];
      assert more[n..] == s.chain + [pair];
      assert more[..n] == registered[..n];
      if s.fired >= 0 && s.awaiting.None? {
        assert registered[..n] == registered;
        FireMeans(s.(chain := s.chain + [pair]), more, start.value, final);
      }
    case CallbackWith(v) =>
      if s.fired == -1 {
        assert registered[..n] == [];
        FireMeans(s.(fired := SideOf(v), results := SetResult(s.results, SideOf(v), Val(v))), registered, v, final);
      }
    case ErrbackWith(w) =>
      if s.fired == -1 {
        var v := AsError(w);
        assert registered[..n] == [];
        FireMeans(s.(fired := SideOf(v), results := SetResult(s.results, SideOf(v), Val(v))), registered, v, final);
      }
    case InnerFires =>
      if s.awaiting.Some? {
        var v := final(s.awaiting.value);
        var results := SetResult(s.results, SideOf(v), Val(v));
        FireMeans(s.(fired := SideOf(v), results := results, paused := 0, awaiting := None),
                  registered, start.value, final);
      }
  }

  // ---- runs ----

  function Registered(events: seq<Event>): seq<Pair> {
    if events == [] then [] else RegisteredAfter(Registered(events[..|events| - 1]), events[|events| - 1])
  }

  /** The value of the first `callback` or `errback`. */
  function Start(events: seq<Event>): Option<Value> {
    if events == [] then None else StartAfter(Start(events[..|events| - 1]), events[|events| - 1])
  }

  /** The first result decides what a Deferred is fired with; `errback` wraps a plain one. */
  lemma {:induction false} FirstResult(events: seq<Event>, k: nat)
    requires k < |events| && (events[k].CallbackWith? || events[k].ErrbackWith?)
    requires forall j :: 0 <= j < k ==> !events[j].CallbackWith? && !events[j].ErrbackWith?
    ensures Start(events) == Some(
      match events[k]
      case CallbackWith(v) => v
      case ErrbackWith(Plain(data)) => GenericError(data)
      case ErrbackWith(error) => error)
    decreases |events|
  {
    var init := events[..|events| - 1];
    if k < |init| {
      FirstResult(init, k);
    } else {
      NoResult(init);
    }
  }

  lemma {:induction false} NoResult(events: seq<Event>)
    requires forall j :: 0 <= j < |events| ==> !events[j].CallbackWith? && !events[j].ErrbackWith?
    ensures Start(events) == None
  {
    if events != [] {
      NoResult(events[..|events| - 1]);
    }
  }

  /** Every step keeps the shape of a state: any sound state means something, with the
      pairs still in its chain and at most one more registered. */
  lemma StepSound(s: State, e: Event, final: nat -> Value)
    requires Sound(s)
    ensures Sound(Step(s, e, final))
  {
    if s.fired == -1 {
      StepMeans(s, s.chain, None, e, final);
    } else if s.awaiting.None? {
      var v := GetResult(s.results, s.fired).value;
      assert Fold(v, [], final) == v;
      StepMeans(s, [], Some(v), e, final);
    } else {
      var v, passing := final(s.awaiting.value), Pair(None, None);
      var registered := [passing] + s.chain;
      assert registered[..1] == [passing] && registered[1..] == s.chain;
      assert Fold(v, [passing], final) == Apply(Fold(v, [], final), passing, final);
      StepMeans(s, registered, Some(v), e, final);
    }
  }

  ghost function Run(events: seq<Event>, final: nat -> Value): (s: State)
    ensures Sound(s)
  {
    if events == [] then INITIAL
    else
      var before, e := Run(events[..|events| - 1], final), events[|events| - 1];
      StepSound(before, e, final);
      Step(before, e, final)
  }

  lemma {:induction false} RunMeans(events: seq<Event>, final: nat -> Value)
    ensures Means(Run(events, final), Registered(events), Start(events), final)
  {
    if events != [] {
      var before := events[..|events| - 1];
      RunMeans(before, final);
      StepMeans(Run(before, final), Registered(before), Start(before), events[|events| - 1], final);
    }
  }

  /** Over every interleaving of registration, firing and inner firings: `paused` is 1
      exactly while an inner Deferred is awaited; the chain is the part of the
      registered pairs not yet consumed, in order; and whenever the Deferred has fired
      and is not paused, the chain is empty and the result is the left fold. */
  lemma {:induction false} RunIsFold(events: seq<Event>, final: nat -> Value)
    ensures var s := Run(events, final);
      && s.paused == (if s.awaiting.Some? then 1 else 0)
      && |s.chain| <= |Registered(events)| && s.chain == Registered(events)[|Registered(events)| - |s.chain|..]
      && (s.fired == -1 <==> Start(events).None?)
      && (s.fired >= 0 && s.paused == 0 ==>
            var v := Fold(Start(events).value, Registered(events), final);
            s.chain == [] && s.fired == (if v.Plain? then 0 else 1) && GetResult(s.results, s.fired) == Val(v))
  {
    RunMeans(events, final);
  }

  /** So when pairs are registered, before or after firing or while paused, does not
      matter for the result. */
  lemma {:induction false} OrderIsInvisible(events: seq<Event>, others: seq<Event>, final: nat -> Value)
    requires Registered(events) == Registered(others) && Start(events) == Start(others)
    requires Start(events).Some?
    requires Run(events, final).paused == 0 && Run(others, final).paused == 0
    ensures var s, t := Run(events, final), Run(others, final);
      s.fired == t.fired && GetResult(s.results, s.fired) == GetResult(t.results, t.fired) && s.chain == t.chain
  {
    RunIsFold(events, final);
    RunIsFold(others, final);
  }

  // ---- cancelling ----

  /** What the constructor was given: no canceller, or one that fires the Deferred with a
      value or leaves it as it is. */
  datatype Canceller = NoCanceller | Cancels(fires: Option<Value>)

  /** An event; `cancel`; or `callback` or `errback` with a Deferred, which they refuse. */
  datatype Act = Happens(event: Event) | Cancel | PassesDeferred

  datatype Machine = Machine(state: State, silentlyCancelled: bool)

  /** The value with which an event is to fire a Deferred. */
  function Firing(e: Event): Option<Value> {
    match e
    case CallbackWith(v) => Some(v)
    case ErrbackWith(v) => Some(AsError(v))
    case _ => None
  }

  function CancelValue(canceller: Canceller): Value {
    if canceller.Cancels? && canceller.fires.Some? then canceller.fires.value else CancelledError
  }

  /** A result for a Deferred that has fired, which `_check` lets through all the same. */
  predicate Late(m: Machine, a: Act) {
    a.Happens? && Firing(a.event).Some? && m.state.fired != -1 && m.silentlyCancelled
  }

  function StepMachine(m: Machine, canceller: Canceller, a: Act, final: nat -> Value): Machine
    requires Sound(m.state)
  {
    match a
    case Happens(e) =>
      if Late(m, a) then Machine(Resback(m.state, Firing(e).value), false)
      else m.(state := Step(m.state, e, final))
    case Cancel =>
      if m.state.fired != -1 then m
      else Machine(Resback(m.state, CancelValue(canceller)), canceller.NoCanceller?)
    case PassesDeferred => m.(silentlyCancelled := m.silentlyCancelled && m.state.fired == -1)
  }

  /** The Deferred that `cancel` is passed on to. */
  function CancelTarget(s: State): Option<nat> {
    if s.fired == 0 && s.results.0.Inner? then Some(s.results.0.id) else None
  }

  // ---- the object ----

  datatype Status = Done | AlreadyCalled | Chained | OnlyFromCallbacks

  /** What a program passes to `callback` or `errback`; a Deferred is refused there. */
  datatype Argument = Given(value: Value) | AnotherDeferred

  class Deferred {
    const canceller: Canceller
    var chain: seq<Pair>
    var fired: int
    var paused: int
    var results: (Slot, Slot)
    var awaiting: Option<nat>
    var silentlyCancelled: bool
    var chained: bool

    constructor (canceller: Canceller)
      ensures Abs() == INITIAL && !silentlyCancelled && !chained && this.canceller == canceller && Sound(Abs())
    {
      this.canceller := canceller;
      chain, fired, paused, results, awaiting := [], -1, 0, (Null, Null), None;
      silentlyCancelled, chained := false, false;
    }

    function Abs(): State
      reads this
    {
      State(chain, fired, paused, results, awaiting)
    }

    function AbsMachine(): Machine
      reads this
    {
      Machine(Abs(), silentlyCancelled)
    }

    /** `_fire`. The local `cb` of the program is set exactly when the loop has paused. */
    method FireChain()
      requires fired == 0 || fired == 1
      requires paused == 0 || paused == 1
      requires paused == 0 ==> OnItsSide(results, fired)
      modifies `chain, `fired, `paused, `results, `awaiting
      ensures Abs() == Fire(old(Abs()))
    {
      var res := GetResult(results, fired);
      var side := fired;
      var cb := false;
      if paused == 0 {
        ghost var start := res.value;
        while |chain| > 0 && paused == 0
          invariant paused == 0 || paused == 1
          invariant cb == (paused == 1)
          invariant paused == 0 ==> res.Val? && side == SideOf(res.value)
          invariant paused == 0 ==> Drain(chain, res.value) == Drain(old(chain), start)
          invariant paused == 1 ==> res.Inner? && side == 0
          invariant paused == 1 ==> (chain, res) == Drain(old(chain), start)
          invariant fired == old(fired) && results == old(results)
          invariant awaiting == old(awaiting)
          decreases |chain|
        {
          var pair := chain[0];
          chain := chain[1..];
          var f := if side == 0 then pair.cb else pair.eb;
          if f.Some? {
            match f.value(res.value)
            case Returns(w) =>
              res := Val(w);
              side := SideOf(w);
            case ReturnsDeferred(id) =>
              res := Inner(id);
              side := 0;
              cb := true;
              paused := paused + 1;
            case Throws(w) =>
              res := Val(AsError(w));
              side := 1;
          }
        }
      }
      fired := side;
      results := SetResult(results, side, res);
      if cb && paused != 0 {
        awaiting := Some(res.id);
      }
    }

    method CallResback(res: Value)
      requires paused == 0 || paused == 1
      modifies `chain, `fired, `paused, `results, `awaiting
      ensures Abs() == Resback(old(Abs()), res)
    {
      fired := if IsError(res) then 1 else 0;
      results := SetResult(results, fired, Val(res));
      FireChain();
    }

    method CallUnpause()
      requires paused == 1
      requires fired >= 0 ==> fired <= 1 && OnItsSide(results, fired)
      modifies `chain, `fired, `paused, `results, `awaiting
      ensures Abs() == Unpause(old(Abs()))
    {
      paused := paused - 1;
      if paused == 0 && fired >= 0 {
        FireChain();
      }
    }

    /** `_continue`, called back with the final value of the awaited Deferred. */
    method Continue(res: Value, ghost final: nat -> Value)
      requires Sound(Abs()) && awaiting.Some? && res == final(awaiting.value)
      modifies `chain, `fired, `paused, `results, `awaiting
      ensures Abs() == Step(old(Abs()), InnerFires, final)
    {
      awaiting := None;
      CallResback(res);
      CallUnpause();
    }

    /** `_check`: false where the program throws AlreadyCalledError. After a silent cancel
        it lets one call through. */
    method Check() returns (ok: bool)
      modifies `silentlyCancelled
      ensures ok == (fired == -1 || old(silentlyCancelled))
      ensures silentlyCancelled == (old(silentlyCancelled) && fired == -1)
    {
      ok := true;
      if fired != -1 {
        if !silentlyCancelled {
          return false;
        }
        silentlyCancelled := false;
      }
    }

    method CallCallback(res: Argument, ghost final: nat -> Value) returns (status: Status)
      requires Sound(Abs())
      modifies `chain, `fired, `paused, `results, `awaiting, `silentlyCancelled
      ensures var a := if res.Given? then Happens(CallbackWith(res.value)) else PassesDeferred;
        AbsMachine() == StepMachine(old(AbsMachine()), canceller, a, final)
      ensures status == if old(fired) != -1 && !old(silentlyCancelled) then AlreadyCalled
                        else if res.Given? then Done else OnlyFromCallbacks
    {
      var ok := Check();
      if !ok {
        return AlreadyCalled;
      }
      if res.AnotherDeferred? {
        return OnlyFromCallbacks;
      }
      CallResback(res.value);
      status := Done;
    }

    method CallErrback(res: Argument, ghost final: nat -> Value) returns (status: Status)
      requires Sound(Abs())
      modifies `chain, `fired, `paused, `results, `awaiting, `silentlyCancelled
      ensures var a := if res.Given? then Happens(ErrbackWith(res.value)) else PassesDeferred;
        AbsMachine() == StepMachine(old(AbsMachine()), canceller, a, final)
      ensures status == if old(fired) != -1 && !old(silentlyCancelled) then AlreadyCalled
                        else if res.Given? then Done else OnlyFromCallbacks
    {
      var ok := Check();
      if !ok {
        return AlreadyCalled;
      }
      if res.AnotherDeferred? {
        return OnlyFromCallbacks;
      }
      CallResback(AsError(res.value));
      status := Done;
    }

    /** `cancel`; the Deferred to which it is passed on, if any. */
    method CallCancel(ghost final: nat -> Value) returns (inner: Option<nat>)
      requires Sound(Abs())
      modifies `chain, `fired, `paused, `results, `awaiting, `silentlyCancelled
      ensures AbsMachine() == StepMachine(old(AbsMachine()), canceller, Cancel, final)
      ensures inner == CancelTarget(old(Abs()))
    {
      inner := None;
      if fired == -1 {
        silentlyCancelled := canceller.NoCanceller?;
        if canceller.Cancels? && canceller.fires.Some? {
          CallResback(canceller.fires.value);
        }
        if fired == -1 {
          var _ := CallErrback(Given(CancelledError), final);
        }
      } else if fired == 0 && results.0.Inner? {
        inner := Some(results.0.id);
      }
    }

    /** `addCallbacks`: a chained Deferred refuses new pairs. */
    method CallAddCallbacks(pair: Pair, ghost final: nat -> Value) returns (status: Status)
      requires Sound(Abs())
      modifies `chain, `fired, `paused, `results, `awaiting
      ensures status == if old(chained) then Chained else Done
      ensures Abs() == if old(chained) then old(Abs()) else Step(old(Abs()), AddCallbacks(pair), final)
    {
      if chained {
        return Chained;
      }
      chain := chain + [pair];
      if fired >= 0 {
        FireChain();
      }
      status := Done;
    }
  }
}
