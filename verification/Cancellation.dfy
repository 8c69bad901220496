/** `cancel`: after a Deferred without a canceller has been cancelled, one more result is let
    through by `_check`. What it does, over every run of events and cancellations. */
module Cancellation {
  import opened Basics
  import opened Deferreds

  /** The state in which `_resback` calls `_fire`. */
  function Loaded(s: State, v: Value): State {
    s.(fired := SideOf(v), results := SetResult(s.results, SideOf(v), Val(v)))
  }

  lemma ResbackSound(s: State, v: Value, final: nat -> Value)
    requires Sound(s)
    ensures Sound(Resback(s, v))
  {
    if s.awaiting.None? {
      DrainFolds(s.chain, v, final);
    } else {
      assert Resback(s, v) == Loaded(s, v);
    }
  }

  lemma MachineSound(m: Machine, canceller: Canceller, a: Act, final: nat -> Value)
    requires Sound(m.state)
    ensures Sound(StepMachine(m, canceller, a, final).state)
  {
    match a
    case Happens(e) =>
      if Late(m, a) {
        ResbackSound(m.state, Firing(e).value, final);
      } else {
        StepSound(m.state, e, final);
      }
    case Cancel => ResbackSound(m.state, CancelValue(canceller), final);
    case PassesDeferred =>
  }

  ghost function RunMachine(canceller: Canceller, acts: seq<Act>, final: nat -> Value): (m: Machine)
    ensures Sound(m.state)
  {
    if acts == [] then Machine(INITIAL, false)
    else
      var before, a := RunMachine(canceller, acts[..|acts| - 1], final), acts[|acts| - 1];
      MachineSound(before, canceller, a, final);
      StepMachine(before, canceller, a, final)
  }

  // ---- what the calls alone say ----

  predicate IsFiring(a: Act) { a.Happens? && Firing(a.event).Some? }

  /** `callback` or `errback`, whatever the argument. */
  predicate IsCall(a: Act) { IsFiring(a) || a.PassesDeferred? }

  function PairsOf(acts: seq<Act>): seq<Pair> {
    if acts == [] then []
    else
      var init, a := PairsOf(acts[..|acts| - 1]), acts[|acts| - 1];
      if a.Happens? then RegisteredAfter(init, a.event) else init
  }

  /** The value a Deferred is fired with: that of the first result, or of `cancel`. */
  function First(canceller: Canceller, acts: seq<Act>): Option<Value> {
    if acts == [] then None
    else
      var first, a := First(canceller, acts[..|acts| - 1]), acts[|acts| - 1];
      if first.Some? then first
      else
        match a
        case Happens(e) => Firing(e)
        case Cancel => Some(CancelValue(canceller))
        case PassesDeferred => None
  }

  /** The first of the results and cancellations decides what a Deferred is fired with: a
      cancellation with what the canceller gives, if it gives anything, and else with
      CancelledError; a plain result of `errback` is wrapped. */
  lemma {:induction false} FirstIs(canceller: Canceller, acts: seq<Act>, k: nat)
    requires k < |acts| && (acts[k].Cancel? || IsFiring(acts[k]))
    requires forall j :: 0 <= j < k ==> !acts[j].Cancel? && !IsFiring(acts[j])
    ensures First(canceller, acts) == Some(
      match acts[k]
      case Happens(CallbackWith(v)) => v
      case Happens(ErrbackWith(Plain(data))) => GenericError(data)
      case Happens(ErrbackWith(error)) => error
      case _ =>
        match canceller
        case Cancels(Some(v)) => v
        case _ => CancelledError)
    decreases |acts|
  {
    var init := acts[..|acts| - 1];
    if k < |init| {
      FirstIs(canceller, init, k);
    } else {
      NoFirst(canceller, init);
    }
  }

  lemma {:induction false} NoFirst(canceller: Canceller, acts: seq<Act>)
    requires forall j :: 0 <= j < |acts| ==> !acts[j].Cancel? && !IsFiring(acts[j])
    ensures First(canceller, acts) == None
  {
    if acts != [] {
      NoFirst(canceller, acts[..|acts| - 1]);
    }
  }

  /** Act c cancels an unfired Deferred, and no `callback` or `errback` has come since. */
  predicate CancelledAt(canceller: Canceller, acts: seq<Act>, c: nat) {
    && c < |acts| && acts[c].Cancel? && First(canceller, acts[..c]).None?
    && forall j :: c < j < |acts| ==> !IsCall(acts[j])
  }

  ghost predicate Armed(canceller: Canceller, acts: seq<Act>) {
    canceller.NoCanceller? && exists c: nat :: CancelledAt(canceller, acts, c)
  }

  /** The flags say what the calls say: the Deferred has fired once a result or `cancel` has
      come, and is silently cancelled from an effective `cancel` to the next call. */
  lemma {:induction false} FlagsAre(canceller: Canceller, acts: seq<Act>, final: nat -> Value)
    ensures var m := RunMachine(canceller, acts, final);
      && (m.state.fired == -1 <==> First(canceller, acts).None?)
      && (m.silentlyCancelled <==> Armed(canceller, acts))
      && (m.silentlyCancelled ==> m.state.fired != -1)
  {
    if acts != [] {
      var init, a := acts[..|acts| - 1], acts[|acts| - 1];
      FlagsAre(canceller, init, final);
      ArmedStep(canceller, acts);
    }
  }

  lemma ArmedStep(canceller: Canceller, acts: seq<Act>)
    requires acts != []
    ensures var init, a := acts[..|acts| - 1], acts[|acts| - 1];
      Armed(canceller, acts) <==>
        if a.Cancel? && First(canceller, init).None? then canceller.NoCanceller?
        else Armed(canceller, init) && !IsCall(a)
  {
    var init, a := acts[..|acts| - 1], acts[|acts| - 1];
    if c: nat :| CancelledAt(canceller, acts, c) && c < |init| {
      assert init[..c] == acts[..c];
      assert CancelledAt(canceller, init, c);
    }
    if c: nat :| CancelledAt(canceller, init, c) && !IsCall(a) {
      assert init[..c] == acts[..c];
      assert CancelledAt(canceller, acts, c);
    }
    if a.Cancel? && First(canceller, init).None? {
      assert CancelledAt(canceller, acts, |init|);
    }
  }

  lemma {:induction false} FirstStays(canceller: Canceller, acts: seq<Act>, j: nat, k: nat)
    requires j <= k <= |acts| && First(canceller, acts[..j]).Some?
    ensures First(canceller, acts[..k]).Some?
    decreases k
  {
    if j < k {
      FirstStays(canceller, acts, j, k - 1);
      assert acts[..k][..k - 1] == acts[..k - 1];
    }
  }

  // ---- the late result ----

  /** Act k is a result, the first call after a silent cancel. */
  ghost predicate LateAt(canceller: Canceller, acts: seq<Act>, k: nat) {
    k < |acts| && IsFiring(acts[k]) && Armed(canceller, acts[..k])
  }

  lemma LateNow(canceller: Canceller, acts: seq<Act>, k: nat, final: nat -> Value)
    requires k < |acts|
    ensures Late(RunMachine(canceller, acts[..k], final), acts[k]) <==> LateAt(canceller, acts, k)
  {
    FlagsAre(canceller, acts[..k], final);
  }

  /** Exactly such a result is let through, at most one in a run, and none if there is a
      canceller. */
  lemma LateIff(canceller: Canceller, acts: seq<Act>, k: nat, final: nat -> Value)
    requires k < |acts|
    ensures Late(RunMachine(canceller, acts[..k], final), acts[k]) <==> LateAt(canceller, acts, k)
    ensures LateAt(canceller, acts, k) ==>
      canceller.NoCanceller? && forall j: nat :: LateAt(canceller, acts, j) ==> j == k
  {
    LateNow(canceller, acts, k, final);
    if LateAt(canceller, acts, k) {
      forall j: nat | LateAt(canceller, acts, j) ensures j == k {
        if j < k {
          LateOnce(canceller, acts, j, k);
        } else if k < j {
          LateOnce(canceller, acts, k, j);
        }
      }
    }
  }

  lemma LateOnce(canceller: Canceller, acts: seq<Act>, j: nat, k: nat)
    requires j < k && LateAt(canceller, acts, j)
    ensures !LateAt(canceller, acts, k)
  {
    if LateAt(canceller, acts, k) {
      var b: nat :| CancelledAt(canceller, acts[..j], b);
      var c: nat :| CancelledAt(canceller, acts[..k], c);
      assert acts[..j][..b] == acts[..b] && acts[..k][..c] == acts[..c];
      assert acts[..k][j] == acts[j];
      assert First(canceller, acts[..b + 1]).Some? by {
        assert acts[..b + 1][..b] == acts[..b] && acts[..b + 1][b] == acts[..j][b];
      }
      FirstStays(canceller, acts, b + 1, c);
    }
  }

  /** It replaces the result unless an inner Deferred is awaited at the time. */
  ghost predicate Replaces(canceller: Canceller, acts: seq<Act>, k: nat, final: nat -> Value) {
    LateAt(canceller, acts, k) && RunMachine(canceller, acts[..k], final).state.paused == 0
  }

  /** A step that is not a late result. */
  lemma OrdinaryMeans(m: Machine, canceller: Canceller, a: Act, registered: seq<Pair>, start: Option<Value>,
                      final: nat -> Value)
    requires !Late(m, a) && Means(m.state, registered, start, final)
    ensures Means(StepMachine(m, canceller, a, final).state,
                  if a.Happens? then RegisteredAfter(registered, a.event) else registered,
                  match a
                  case Happens(e) => StartAfter(start, e)
                  case Cancel => if start.Some? then start else Some(CancelValue(canceller))
                  case PassesDeferred => start,
                  final)
  {
    match a
    case Happens(e) => StepMeans(m.state, registered, start, e, final);
    case Cancel =>
      if m.state.fired == -1 {
        assert registered[..0] == [];
        FireMeans(Loaded(m.state, CancelValue(canceller)), registered, CancelValue(canceller), final);
      }
    case PassesDeferred =>
  }

  /** A late result while an inner Deferred is awaited does not change the meaning. */
  lemma PausedMeans(m: Machine, canceller: Canceller, a: Act, registered: seq<Pair>, start: Option<Value>,
                    final: nat -> Value)
    requires Late(m, a) && m.state.paused != 0 && Means(m.state, registered, start, final)
    ensures Means(StepMachine(m, canceller, a, final).state, registered, start, final)
  {
  }

  lemma NotReplaced(canceller: Canceller, acts: seq<Act>, k: nat, final: nat -> Value)
    requires acts != [] && !Replaces(canceller, acts, k, final)
    ensures !Replaces(canceller, acts[..|acts| - 1], k, final)
      || k == |acts| - 1
  {
    var init := acts[..|acts| - 1];
    if k < |init| {
      assert init[..k] == acts[..k] && init[k] == acts[k];
    }
  }

  lemma UnlessReplacedNow(canceller: Canceller, acts: seq<Act>, registered: seq<Pair>, start: Option<Value>,
                          final: nat -> Value)
    requires acts != [] && !Replaces(canceller, acts, |acts| - 1, final)
    requires var m, a := RunMachine(canceller, acts[..|acts| - 1], final), acts[|acts| - 1];
      Late(m, a) && Means(m.state, registered, start, final)
    ensures Means(RunMachine(canceller, acts, final).state, registered, start, final)
  {
    var m, a := RunMachine(canceller, acts[..|acts| - 1], final), acts[|acts| - 1];
    LateNow(canceller, acts, |acts| - 1, final);
    PausedMeans(m, canceller, a, registered, start, final);
  }

  /** A late result comes after the first one and registers nothing. */
  lemma LateAddsNothing(canceller: Canceller, acts: seq<Act>, final: nat -> Value)
    requires acts != [] && Late(RunMachine(canceller, acts[..|acts| - 1], final), acts[|acts| - 1])
    ensures PairsOf(acts) == PairsOf(acts[..|acts| - 1])
    ensures First(canceller, acts) == First(canceller, acts[..|acts| - 1])
  {
    FlagsAre(canceller, acts[..|acts| - 1], final);
  }

  /** Any other step carries the meaning of the state on. */
  lemma OrdinaryCarries(canceller: Canceller, acts: seq<Act>, final: nat -> Value)
    requires acts != []
    requires var init := acts[..|acts| - 1];
      var m := RunMachine(canceller, init, final);
      !Late(m, acts[|acts| - 1]) && Means(m.state, PairsOf(init), First(canceller, init), final)
    ensures Means(RunMachine(canceller, acts, final).state, PairsOf(acts), First(canceller, acts), final)
  {
    var init := acts[..|acts| - 1];
    OrdinaryMeans(RunMachine(canceller, init, final), canceller, acts[|acts| - 1], PairsOf(init),
                  First(canceller, init), final);
  }

  lemma {:induction false} UnlessReplaced(canceller: Canceller, acts: seq<Act>, final: nat -> Value)
    requires forall k: nat :: !Replaces(canceller, acts, k, final)
    ensures Means(RunMachine(canceller, acts, final).state, PairsOf(acts), First(canceller, acts), final)
    decreases |acts|
  {
    if acts != [] {
      var init := acts[..|acts| - 1];
      forall k: nat ensures !Replaces(canceller, init, k, final) {
        NotReplaced(canceller, acts, k, final);
      }
      UnlessReplaced(canceller, init, final);
      if Late(RunMachine(canceller, init, final), acts[|init|]) {
        LateAddsNothing(canceller, acts, final);
        UnlessReplacedNow(canceller, acts, PairsOf(init), First(canceller, init), final);
      } else {
        OrdinaryCarries(canceller, acts, final);
      }
    }
  }

  lemma LateMeans(m: Machine, canceller: Canceller, a: Act, final: nat -> Value)
    requires Late(m, a) && m.state.paused == 0 && Sound(m.state)
    ensures Means(StepMachine(m, canceller, a, final).state, [], Firing(a.event), final)
  {
    var v := Firing(a.event).value;
    FireMeans(Loaded(m.state, v), [], v, final);
  }

  lemma PairsStep(acts: seq<Act>, k: nat)
    requires k < |acts|
    ensures var before, a := PairsOf(acts[..|acts| - 1][k..]), acts[|acts| - 1];
      PairsOf(acts[k..]) == if a.Happens? then RegisteredAfter(before, a.event) else before
  {
    var rest := acts[k..];
    assert rest[..|rest| - 1] == acts[..|acts| - 1][k..] && rest[|rest| - 1] == acts[|acts| - 1];
  }

  lemma ReplacesBefore(canceller: Canceller, acts: seq<Act>, k: nat, final: nat -> Value)
    requires k < |acts| - 1 && Replaces(canceller, acts, k, final)
    ensures Replaces(canceller, acts[..|acts| - 1], k, final)
    ensures !Late(RunMachine(canceller, acts[..|acts| - 1], final), acts[|acts| - 1])
  {
    var init := acts[..|acts| - 1];
    assert init[..k] == acts[..k] && init[k] == acts[k];
    LateNow(canceller, acts, |init|, final);
    LateOnce(canceller, acts, k, |init|);
  }

  lemma ReplacedNow(canceller: Canceller, acts: seq<Act>, final: nat -> Value)
    requires acts != [] && Replaces(canceller, acts, |acts| - 1, final)
    ensures Means(RunMachine(canceller, acts, final).state, [], Firing(acts[|acts| - 1].event), final)
  {
    LateNow(canceller, acts, |acts| - 1, final);
    LateMeans(RunMachine(canceller, acts[..|acts| - 1], final), canceller, acts[|acts| - 1], final);
  }

  /** What comes after the replacement carries on from it. */
  lemma CarriesOn(canceller: Canceller, acts: seq<Act>, k: nat, final: nat -> Value)
    requires k < |acts| - 1 && acts[k].Happens? && Firing(acts[k].event).Some?
    requires var init := acts[..|acts| - 1];
      var m := RunMachine(canceller, init, final);
      !Late(m, acts[|init|]) && Means(m.state, PairsOf(init[k + 1..]), Firing(acts[k].event), final)
    ensures Means(RunMachine(canceller, acts, final).state, PairsOf(acts[k + 1..]), Firing(acts[k].event), final)
  {
    var init := acts[..|acts| - 1];
    PairsStep(acts, k + 1);
    OrdinaryMeans(RunMachine(canceller, init, final), canceller, acts[|init|], PairsOf(init[k + 1..]),
                  Firing(acts[k].event), final);
  }

  lemma {:induction false} OnceReplaced(canceller: Canceller, acts: seq<Act>, k: nat, final: nat -> Value)
    requires Replaces(canceller, acts, k, final)
    ensures Means(RunMachine(canceller, acts, final).state, PairsOf(acts[k + 1..]), Firing(acts[k].event), final)
    decreases |acts|
  {
    if k == |acts| - 1 {
      assert acts[k + 1..] == [];
      ReplacedNow(canceller, acts, final);
    } else {
      ReplacesBefore(canceller, acts, k, final);
      OnceReplaced(canceller, acts[..|acts| - 1], k, final);
      CarriesOn(canceller, acts, k, final);
    }
  }

  /** Over every run with cancellations, a settled Deferred holds the fold of all its pairs
      over the first value, unless a late result has come while nothing was awaited: then it
      holds the fold, over the late result, of the pairs registered after it. */
  lemma {:induction false} CancelledRunIsFold(canceller: Canceller, acts: seq<Act>, final: nat -> Value)
    requires RunMachine(canceller, acts, final).state.fired >= 0
    requires RunMachine(canceller, acts, final).state.paused == 0
    ensures var s := RunMachine(canceller, acts, final).state;
      && s.chain == [] && GetResult(s.results, s.fired).Val?
      && s.fired == SideOf(GetResult(s.results, s.fired).value)
      && ((forall k: nat :: !Replaces(canceller, acts, k, final)) ==>
            && First(canceller, acts).Some?
            && GetResult(s.results, s.fired).value == Fold(First(canceller, acts).value, PairsOf(acts), final))
      && (forall k: nat :: Replaces(canceller, acts, k, final) ==>
            GetResult(s.results, s.fired).value
            == Fold(Firing(acts[k].event).value, PairsOf(acts[k + 1..]), final))
  {
    if forall k: nat :: !Replaces(canceller, acts, k, final) {
      UnlessReplaced(canceller, acts, final);
    }
    forall k: nat | Replaces(canceller, acts, k, final)
      ensures Means(RunMachine(canceller, acts, final).state, PairsOf(acts[k + 1..]), Firing(acts[k].event), final)
    {
      OnceReplaced(canceller, acts, k, final);
    }
  }

  /** So a cancelled Deferred may still come to hold any result: cancel it silently before
      any callback is added, and call it once more. */
  lemma CancelThenCallback(v: Value, final: nat -> Value)
    ensures var s := RunMachine(NoCanceller, [Cancel, Happens(CallbackWith(v))], final).state;
      s.fired == SideOf(v) && GetResult(s.results, s.fired) == Val(v)
  {
    var acts := [Cancel, Happens(CallbackWith(v))];
    assert acts[..1] == [Cancel] && [Cancel][..0] == [];
    var m := RunMachine(NoCanceller, acts[..1], final);
    assert m == StepMachine(RunMachine(NoCanceller, [], final), NoCanceller, Cancel, final);
  }

  // ---- cancelling what is awaited ----

  /** A late result has come while an inner Deferred was awaited, which has not resumed
      the chain since. */
  ghost predicate MissedAt(canceller: Canceller, acts: seq<Act>, k: nat, final: nat -> Value) {
    && LateAt(canceller, acts, k) && RunMachine(canceller, acts[..k], final).state.paused == 1
    && forall j :: k < j < |acts| ==> acts[j] != Happens(InnerFires)
  }

  ghost predicate Missed(canceller: Canceller, acts: seq<Act>, final: nat -> Value) {
    exists k: nat :: MissedAt(canceller, acts, k, final)
  }

  lemma MissedStep(canceller: Canceller, acts: seq<Act>, final: nat -> Value)
    requires acts != []
    ensures var init, a := acts[..|acts| - 1], acts[|acts| - 1];
      var late := LateAt(canceller, acts, |init|) && RunMachine(canceller, init, final).state.paused == 1;
      Missed(canceller, acts, final) <==> late || (Missed(canceller, init, final) && a != Happens(InnerFires))
  {
    var init, a := acts[..|acts| - 1], acts[|acts| - 1];
    if Missed(canceller, acts, final) {
      var k: nat :| MissedAt(canceller, acts, k, final);
      if k < |init| {
        MissedFurther(canceller, acts, k, final);
      }
    }
    if Missed(canceller, init, final) && a != Happens(InnerFires) {
      var k: nat :| MissedAt(canceller, init, k, final);
      MissedFurther(canceller, acts, k, final);
    }
    if LateAt(canceller, acts, |init|) && RunMachine(canceller, init, final).state.paused == 1 {
      assert MissedAt(canceller, acts, |init|, final);
    }
  }

  lemma MissedFurther(canceller: Canceller, acts: seq<Act>, k: nat, final: nat -> Value)
    requires k < |acts| - 1
    ensures var init, a := acts[..|acts| - 1], acts[|acts| - 1];
      MissedAt(canceller, acts, k, final) <==> MissedAt(canceller, init, k, final) && a != Happens(InnerFires)
  {
    var init := acts[..|acts| - 1];
    assert init[..k] == acts[..k] && init[k] == acts[k];
    assert LateAt(canceller, init, k) <==> LateAt(canceller, acts, k);
    assert forall j :: k < j < |init| ==> init[j] == acts[j];
  }

  /** The Deferred `cancel` is passed on to is the awaited one, or none if it is missed. */
  predicate TargetIs(s: State, missed: bool) {
    && CancelTarget(s) == (if missed then None else s.awaiting)
    && (missed ==> s.awaiting.Some?)
  }

  lemma FireTarget(s: State)
    requires (s.fired == 0 || s.fired == 1) && s.awaiting.None?
    requires OnItsSide(s.results, s.fired)
    ensures s.paused == 0 ==> TargetIs(Fire(s), false)
  {
    if s.paused == 0 {
      DrainFolds(s.chain, GetResult(s.results, s.fired).value, _ => Plain(0));
    }
  }

  lemma TargetStep(m: Machine, canceller: Canceller, a: Act, missed: bool, final: nat -> Value)
    requires Sound(m.state) && TargetIs(m.state, missed)
    ensures TargetIs(StepMachine(m, canceller, a, final).state,
                     (Late(m, a) && m.state.paused == 1) || (missed && a != Happens(InnerFires)))
  {
    var s := m.state;
    if s.awaiting.Some? && a.Happens? {
      match a.event
      case AddCallbacks(pair) =>
        assert Step(s, a.event, final) == s.(chain := s.chain + [pair]);
      case InnerFires =>
        FireTarget(Loaded(s, final(s.awaiting.value)).(paused := 0, awaiting := None));
      case _ =>
    } else if IsFiring(a) {
      FireTarget(Loaded(s, Firing(a.event).value));
    } else if a.Happens? && a.event.AddCallbacks? && s.fired >= 0 {
      FireTarget(s.(chain := s.chain + [a.event.pair]));
    } else if a.Cancel? && s.fired == -1 {
      FireTarget(Loaded(s, CancelValue(canceller)));
    }
  }

  /** `cancel` is passed on to the awaited Deferred exactly unless a late result has come in
      the meantime. */
  lemma {:induction false} CancelReachesIff(canceller: Canceller, acts: seq<Act>, final: nat -> Value)
    ensures var s, missed := RunMachine(canceller, acts, final).state, Missed(canceller, acts, final);
      CancelTarget(s) == (if missed then None else s.awaiting) && (missed ==> s.awaiting.Some?)
  {
    if acts != [] {
      var init := acts[..|acts| - 1];
      CancelReachesIff(canceller, init, final);
      MissedStep(canceller, acts, final);
      LateNow(canceller, acts, |init|, final);
      TargetStep(RunMachine(canceller, init, final), canceller, acts[|init|], Missed(canceller, init, final), final);
    }
  }

  /** An errback that returns a Deferred. */
  function Recovering(id: nat): Pair {
    Pair(None, Some(_ => ReturnsDeferred(id)))
  }

  lemma CancelPauses(id: nat)
    ensures Resback(INITIAL.(chain := [Recovering(id)]), CancelledError)
         == State([], 0, 1, (Inner(id), Val(CancelledError)), Some(id))
  {
    assert [Recovering(id)][1..] == [];
    assert Recovering(id).eb.value(CancelledError) == ReturnsDeferred(id);
    assert Drain([Recovering(id)], CancelledError) == ([], Inner(id));
  }

  function MissingActs(id: nat, v: Value): seq<Act> {
    [Happens(AddCallbacks(Recovering(id))), Cancel, Happens(CallbackWith(v))]
  }

  /** Such a run: cancelled silently, a Deferred comes to await the one its errback returns;
      then it is called once more. */
  lemma CancelMisses(id: nat, v: Value, final: nat -> Value)
    ensures var s := RunMachine(NoCanceller, MissingActs(id, v), final).state;
      Missed(NoCanceller, MissingActs(id, v), final) && s.awaiting == Some(id) && CancelTarget(s) == None
  {
    var acts := MissingActs(id, v);
    assert acts[..2][..1] == acts[..1] && acts[..1][..0] == [];
    assert [] + [Recovering(id)] == [Recovering(id)];
    var added := INITIAL.(chain := [Recovering(id)]);
    assert StepMachine(Machine(INITIAL, false), NoCanceller, acts[0], final) == Machine(added, false);
    assert RunMachine(NoCanceller, acts[..1], final) == Machine(added, false);
    CancelPauses(id);
    assert RunMachine(NoCanceller, acts[..2], final) == Machine(Resback(added, CancelledError), true);
    CancelReachesIff(NoCanceller, acts, final);
  }
}
