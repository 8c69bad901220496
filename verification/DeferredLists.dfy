/** `MochiKit.Async.DeferredList` and `gatherResults`: a Deferred that joins a list of
    others, whatever the order in which they complete, whatever the list's own chain does
    in between and wherever the list is cancelled. */
module DeferredLists {
  import opened Basics
  import opened Deferreds

  datatype Flags = Flags(
    fireOnOneCallback: bool,
    fireOnOneErrback: bool,
    consumeErrors: bool,
    canceller: Canceller)

  /** One member completing: its place in the list and its value, an error or not. */
  datatype Completion = Completion(index: nat, value: Value)

  predicate Success(c: Completion) { !IsError(c.value) }

  /** What the list itself was fired with, last. */
  datatype Fired =
    | NotYet
    | WithList(resultList: seq<Option<(bool, Value)>>)
    | WithOne(index: nat, value: Value)
    | WithError(value: Value)
    | WithCancel(value: Value)

  /** `side` is the field `fired` of the list: -1, or the side its own chain is on. */
  datatype ListState = ListState(
    resultList: seq<Option<(bool, Value)>>,
    finishedCount: nat,
    fired: Fired,
    side: int,
    silentlyCancelled: bool)

  /** How `_cbDeferred` ends: a value or null for the member's chain to go on with, or the
      list's AlreadyCalledError thrown into it. */
  datatype Passed = PassedOn(value: Value) | PassedNull | Threw

  /** The list's own callbacks run when it fires, when more are added to it and when an
      inner Deferred resumes it; each of these may leave it on either side. */
  datatype Happening = Completes(member: Completion) | Turns(side: int) | CancelsList

  function FirstSide(fired: Fired): int {
    match fired
    case NotYet => -1
    case WithError(_) => 1
    case WithCancel(v) => SideOf(v)
    case _ => 0
  }

  function Init(n: nat, flags: Flags): ListState {
    var empty := seq(n, _ => None);
    var fired := if n == 0 && !flags.fireOnOneCallback then WithList(empty) else NotYet;
    ListState(empty, 0, fired, FirstSide(fired), false)
  }

  /** `_cbDeferred`. Firing a list that has fired throws, unless it was silently
      cancelled; that lets one call through. */
  function CbDeferred(s: ListState, flags: Flags, index: nat, success: bool, value: Value): (ListState, Passed)
    requires index < |s.resultList|
  {
    var list := s.resultList[index := Some((success, value))];
    var s' := s.(resultList := list, finishedCount := s.finishedCount + 1);
    var fire :=
      if s.side == 0 then NotYet
      else if success && flags.fireOnOneCallback then WithOne(index, value)
      else if !success && flags.fireOnOneErrback then WithError(AsError(value))
      else if s'.finishedCount == |list| then WithList(list)
      else NotYet;
    var passed := if !success && flags.consumeErrors then PassedNull else PassedOn(value);
    if fire.NotYet? then (s', passed)
    else if s.side != -1 && !s.silentlyCancelled then (s', Threw)
    else
      (s'.(fired := fire, side := FirstSide(fire), silentlyCancelled := s.silentlyCancelled && s.side == -1), passed)
  }

  /** The two pairs the constructor adds to a member: the second one catches what the
      first one throws. */
  function Complete(s: ListState, flags: Flags, c: Completion): (ListState, Passed)
    requires c.index < |s.resultList|
  {
    var first := CbDeferred(s, flags, c.index, Success(c), c.value);
    if Success(c) && first.1.Threw? then CbDeferred(first.0, flags, c.index, false, AlreadyCalledError) else first
  }

  /** `cancel`, inherited: nothing happens to a list that has fired. */
  function CancelList(s: ListState, flags: Flags): ListState {
    if s.side != -1 then s
    else
      var fired := WithCancel(CancelValue(flags.canceller));
      s.(fired := fired, side := FirstSide(fired), silentlyCancelled := flags.canceller.NoCanceller?)
  }

  function Step(s: ListState, flags: Flags, h: Happening): ListState
    requires h.Completes? ==> h.member.index < |s.resultList|
  {
    match h
    case Completes(c) => Complete(s, flags, c).0
    case Turns(side) => if s.side == -1 then s else s.(side := if side == 0 then 0 else 1)
    case CancelsList => CancelList(s, flags)
  }

  /** Members of a list of n, each completing at most once. */
  predicate Proper(n: nat, hs: seq<Happening>) {
    && (forall i :: 0 <= i < |hs| && hs[i].Completes? ==> hs[i].member.index < n)
    && (forall i, j :: 0 <= i < j < |hs| && hs[i].Completes? && hs[j].Completes? ==>
          hs[i].member.index != hs[j].member.index)
  }

  ghost function Run(n: nat, flags: Flags, hs: seq<Happening>): (s: ListState)
    requires Proper(n, hs)
    ensures |s.resultList| == n
  {
    if hs == [] then Init(n, flags) else Step(Run(n, flags, hs[..|hs| - 1]), flags, hs[|hs| - 1])
  }

  /** What the member that has just completed goes on with. */
  ghost function LastPassed(n: nat, flags: Flags, hs: seq<Happening>): Passed
    requires Proper(n, hs) && hs != [] && hs[|hs| - 1].Completes?
  {
    Complete(Run(n, flags, hs[..|hs| - 1]), flags, hs[|hs| - 1].member).1
  }

  // ---- counting ----

  /** The members that have completed. */
  function Completed(hs: seq<Happening>): set<nat> {
    if hs == [] then {}
    else
      var h := hs[|hs| - 1];
      Completed(hs[..|hs| - 1]) + if h.Completes? then {h.member.index} else {}
  }

  function Number(hs: seq<Happening>): nat {
    if hs == [] then 0
    else Number(hs[..|hs| - 1]) + if hs[|hs| - 1].Completes? then 1 else 0
  }

  lemma {:induction false} CompletedAre(hs: seq<Happening>, i: nat)
    ensures i in Completed(hs) <==> exists k :: 0 <= k < |hs| && hs[k].Completes? && hs[k].member.index == i
  {
    if hs != [] {
      var init := hs[..|hs| - 1];
      CompletedAre(init, i);
      if k :| 0 <= k < |init| && init[k].Completes? && init[k].member.index == i {
        assert hs[k].Completes?;
      }
    }
  }

  lemma {:induction false} CompletedSize(n: nat, hs: seq<Happening>)
    requires Proper(n, hs)
    ensures |Completed(hs)| == Number(hs) && Completed(hs) <= UpTo(n)
  {
    if hs != [] {
      CompletedSize(n, hs[..|hs| - 1]);
      if hs[|hs| - 1].Completes? {
        CompletedAre(hs[..|hs| - 1], hs[|hs| - 1].member.index);
      }
    }
  }

  lemma Pigeonhole(n: nat, hs: seq<Happening>)
    requires Proper(n, hs)
    ensures Number(hs) <= n
    ensures Number(hs) == n ==> Completed(hs) == UpTo(n)
  {
    CompletedSize(n, hs);
    Subset(Completed(hs), UpTo(n));
  }

  lemma Subset(a: set<nat>, b: set<nat>)
    requires a <= b
    ensures |a| <= |b|
    ensures |a| == |b| ==> a == b
  {
    var rest := b - a;
    assert b == a + rest;
  }

  // ---- what every list keeps ----

  /** A completion that is to fire the list. */
  predicate WouldFire(s: ListState, flags: Flags, success: bool) {
    s.side != 0
    && ((if success then flags.fireOnOneCallback else flags.fireOnOneErrback)
        || s.finishedCount + 1 == |s.resultList|)
  }

  /** The list throws AlreadyCalledError into the member. */
  predicate Refuses(s: ListState, flags: Flags, success: bool) {
    WouldFire(s, flags, success) && s.side != -1 && !s.silentlyCancelled
  }

  /** A silently cancelled list is fired once more. */
  predicate Refires(s: ListState, flags: Flags, c: Completion) {
    WouldFire(s, flags, Success(c)) && s.side != -1 && s.silentlyCancelled
  }

  ghost predicate ListOk(s: ListState, flags: Flags) {
    && -1 <= s.side <= 1
    && (s.side == -1 <==> s.fired.NotYet?)
    && (s.silentlyCancelled ==> s.fired == WithCancel(CancelledError) && flags.canceller.NoCanceller?)
  }

  /** What a list was fired with stays unless the list is fired once more. */
  lemma StepFired(s: ListState, flags: Flags, h: Happening)
    requires h.Completes? ==> h.member.index < |s.resultList|
    requires ListOk(s, flags)
    ensures var t, again := Step(s, flags, h), h.Completes? && Refires(s, flags, h.member);
      && ListOk(t, flags)
      && (!s.fired.NotYet? && !again ==> t.fired == s.fired)
      && (!s.fired.NotYet? && !s.silentlyCancelled ==> !t.silentlyCancelled)
      && (again ==> !t.fired.WithCancel? && !t.fired.NotYet? && !t.silentlyCancelled)
  {
  }

  lemma {:induction false} RunOk(n: nat, flags: Flags, hs: seq<Happening>)
    requires Proper(n, hs)
    ensures ListOk(Run(n, flags, hs), flags)
  {
    if hs != [] {
      RunOk(n, flags, hs[..|hs| - 1]);
      StepFired(Run(n, flags, hs[..|hs| - 1]), flags, hs[|hs| - 1]);
    }
  }

  ghost predicate RefiresAt(n: nat, flags: Flags, hs: seq<Happening>, k: nat)
    requires Proper(n, hs)
  {
    k < |hs| && hs[k].Completes? && Refires(Run(n, flags, hs[..k]), flags, hs[k].member)
  }

  /** At happening k or later the list is fired once more. */
  ghost predicate RefiredFrom(n: nat, flags: Flags, hs: seq<Happening>, k: nat)
    requires Proper(n, hs)
  {
    exists j: nat :: k <= j && RefiresAt(n, flags, hs, j)
  }

  ghost predicate Refired(n: nat, flags: Flags, hs: seq<Happening>)
    requires Proper(n, hs)
  {
    RefiredFrom(n, flags, hs, 0)
  }

  lemma RefiredStep(n: nat, flags: Flags, hs: seq<Happening>, k: nat)
    requires Proper(n, hs) && k < |hs|
    ensures RefiredFrom(n, flags, hs, k)
       <==> RefiredFrom(n, flags, hs[..|hs| - 1], k) || RefiresAt(n, flags, hs, |hs| - 1)
  {
    var init := hs[..|hs| - 1];
    if RefiredFrom(n, flags, hs, k) {
      var j: nat :| k <= j && RefiresAt(n, flags, hs, j);
      if j < |init| {
        assert init[..j] == hs[..j];
        assert RefiresAt(n, flags, init, j);
      }
    }
    if RefiredFrom(n, flags, init, k) {
      var j: nat :| k <= j && RefiresAt(n, flags, init, j);
      assert init[..j] == hs[..j];
      assert RefiresAt(n, flags, hs, j);
    }
  }

  /** What a list was fired with stays exactly unless it is fired once more, for which it
      has to have been cancelled silently; then it has not been since. */
  lemma {:induction false} FiresOnceIff(n: nat, flags: Flags, hs: seq<Happening>, k: nat)
    requires Proper(n, hs) && k <= |hs| && !Run(n, flags, hs[..k]).fired.NotYet?
    ensures var was, now := Run(n, flags, hs[..k]), Run(n, flags, hs);
      && (now.fired == was.fired <==> !RefiredFrom(n, flags, hs, k))
      && (now.fired != was.fired ==> was.silentlyCancelled && !now.silentlyCancelled && !now.fired.WithCancel?)
      && (!was.silentlyCancelled ==> !now.silentlyCancelled)
      && !now.fired.NotYet?
    decreases |hs|
  {
    if k == |hs| {
      assert hs[..k] == hs;
    } else {
      var init := hs[..|hs| - 1];
      assert init[..k] == hs[..k];
      FiresOnceIff(n, flags, init, k);
      RefiredStep(n, flags, hs, k);
      RunOk(n, flags, init);
      RunOk(n, flags, hs[..k]);
      StepFired(Run(n, flags, init), flags, hs[|hs| - 1]);
    }
  }

  /** A list is fired once more at most once. */
  lemma RefiresOnce(n: nat, flags: Flags, hs: seq<Happening>, j: nat)
    requires Proper(n, hs) && RefiresAt(n, flags, hs, j)
    ensures !RefiredFrom(n, flags, hs, j + 1)
    ensures Run(n, flags, hs).fired == Run(n, flags, hs[..j + 1]).fired
  {
    assert hs[..j + 1][..j] == hs[..j];
    RunOk(n, flags, hs[..j]);
    StepFired(Run(n, flags, hs[..j]), flags, hs[j]);
    FiresOnceIff(n, flags, hs, j + 1);
  }

  /** A member goes on with its own value, or with null after a consumed error, exactly if
      the list does not refuse. */
  lemma DisturbsIff(s: ListState, flags: Flags, c: Completion)
    requires c.index < |s.resultList|
    ensures Complete(s, flags, c).1 == (if !Success(c) && flags.consumeErrors then PassedNull else PassedOn(c.value))
       <==> !Refuses(s, flags, Success(c))
  {
  }

  /** A success that is refused: the member's second pair reports the error as the member's
      own failure. */
  predicate Overwrites(s: ListState, flags: Flags, c: Completion) {
    Success(c) && Refuses(s, flags, true)
  }

  lemma CompleteWrites(s: ListState, flags: Flags, c: Completion)
    requires c.index < |s.resultList|
    ensures var t := Complete(s, flags, c).0;
      if Overwrites(s, flags, c) then
        && t.resultList == s.resultList[c.index := Some((false, AlreadyCalledError))]
        && t.finishedCount == s.finishedCount + 2
      else
        && t.resultList == s.resultList[c.index := Some((Success(c), c.value))]
        && t.finishedCount == s.finishedCount + 1
  {
  }

  /** A member's slot holds the member's own flag and value, for good, exactly unless the
      member's completion was overwritten. */
  lemma {:induction false} SlotKeptIff(n: nat, flags: Flags, hs: seq<Happening>, k: nat)
    requires Proper(n, hs) && k < |hs| && hs[k].Completes?
    ensures var c, slot := hs[k].member, Run(n, flags, hs).resultList[hs[k].member.index];
      && (slot == Some((Success(c), c.value)) <==> !Overwrites(Run(n, flags, hs[..k]), flags, c))
      && (slot != Some((Success(c), c.value)) ==> slot == Some((false, AlreadyCalledError)))
    decreases |hs|
  {
    var init := hs[..|hs| - 1];
    if k == |init| {
      CompleteWrites(Run(n, flags, init), flags, hs[k].member);
    } else {
      SlotKeptIff(n, flags, init, k);
      assert init[..k] == hs[..k] && init[k] == hs[k];
      if hs[|init|].Completes? {
        CompleteWrites(Run(n, flags, init), flags, hs[|init|].member);
      }
    }
  }

  lemma {:induction false} SlotEmpty(n: nat, flags: Flags, hs: seq<Happening>, i: nat)
    requires Proper(n, hs) && i < n && i !in Completed(hs)
    ensures Run(n, flags, hs).resultList[i] == None
  {
    if hs != [] {
      var init := hs[..|hs| - 1];
      SlotEmpty(n, flags, init, i);
      if hs[|init|].Completes? {
        CompleteWrites(Run(n, flags, init), flags, hs[|init|].member);
      }
    }
  }

  /** The first completion that fires a list decides what with, and for good: the first
      success, with its index and value, if one is enough; the first failure, if one is
      enough; and else the last completion, with all slots. */
  lemma FiredWith(n: nat, flags: Flags, hs: seq<Happening>, k: nat)
    requires Proper(n, hs) && k < |hs| && hs[k].Completes? && Run(n, flags, hs[..k]).side == -1
    ensures var before, c, fired := Run(n, flags, hs[..k]), hs[k].member, Run(n, flags, hs).fired;
      if c.value.Plain? && flags.fireOnOneCallback then fired == WithOne(c.index, c.value)
      else if !c.value.Plain? && flags.fireOnOneErrback then fired == WithError(c.value)
      else before.finishedCount + 1 == n ==>
        fired == WithList(before.resultList[c.index := Some((c.value.Plain?, c.value))])
  {
    assert hs[..k + 1][..k] == hs[..k];
    RunOk(n, flags, hs[..k]);
    RunOk(n, flags, hs[..k + 1]);
    if !Run(n, flags, hs[..k + 1]).fired.NotYet? {
      FiresOnceIff(n, flags, hs, k + 1);
    }
  }

  // ---- a plain join ----

  function Join(consumeErrors: bool, canceller: Canceller): Flags {
    Flags(false, false, consumeErrors, canceller)
  }

  /** The list is cancelled at happening k, before its last member has completed. */
  predicate CutAt(n: nat, hs: seq<Happening>, k: nat) {
    k < |hs| && hs[k].CancelsList? && Number(hs[..k]) < n
  }

  ghost predicate Cut(n: nat, hs: seq<Happening>) {
    exists k: nat :: CutAt(n, hs, k)
  }

  lemma CutStep(n: nat, hs: seq<Happening>)
    requires hs != []
    ensures Cut(n, hs) <==> Cut(n, hs[..|hs| - 1]) || CutAt(n, hs, |hs| - 1)
  {
    var init := hs[..|hs| - 1];
    if Cut(n, hs) {
      var k: nat :| CutAt(n, hs, k);
      if k < |init| {
        assert init[..k] == hs[..k];
        assert CutAt(n, init, k);
      }
    }
    if Cut(n, init) {
      var k: nat :| CutAt(n, init, k);
      assert init[..k] == hs[..k];
      assert CutAt(n, hs, k);
    }
  }

  /** A joining list of n after `number` completions, cancelled before the last one (`cut`),
      and fired once more after that (`refired`). */
  ghost predicate JoinIs(s: ListState, canceller: Canceller, n: nat, number: nat, cut: bool, refired: bool) {
    && |s.resultList| == n
    && s.fired == (if !cut then (if number == n then WithList(s.resultList) else NotYet)
                   else if refired then WithList(s.resultList)
                   else WithCancel(CancelValue(canceller)))
    && (s.side == -1 <==> s.fired.NotYet?)
    && (refired ==> cut && number == n)
    && (number < n || !cut ==> s.finishedCount == number)
  }

  lemma JoinStep(s: ListState, flags: Flags, h: Happening, n: nat, number: nat, cut: bool, refired: bool)
    requires flags == Join(flags.consumeErrors, flags.canceller) && ListOk(s, flags)
    requires JoinIs(s, flags.canceller, n, number, cut, refired) && number <= n
    requires h.Completes? ==> h.member.index < n && number < n
    ensures JoinIs(Step(s, flags, h), flags.canceller, n, if h.Completes? then number + 1 else number,
                   cut || (h.CancelsList? && number < n),
                   refired || (h.Completes? && Refires(s, flags, h.member)))
  {
    if h.Completes? {
      CompleteWrites(s, flags, h.member);
    }
  }

  /** With both fire-on-one flags off the list fires exactly when its last member
      completes, with the full result list, and its own chain does not matter, unless it
      is cancelled before. Then it has been fired by that, and the last completion fires
      it again exactly if it is let through. Up to there the count is exact. */
  lemma {:induction false} JoinFires(n: nat, consumeErrors: bool, canceller: Canceller, hs: seq<Happening>)
    requires Proper(n, hs)
    ensures var flags := Join(consumeErrors, canceller);
      JoinIs(Run(n, flags, hs), canceller, n, Number(hs), Cut(n, hs), Refired(n, flags, hs))
    decreases |hs|
  {
    var flags := Join(consumeErrors, canceller);
    if hs != [] {
      var init, h := hs[..|hs| - 1], hs[|hs| - 1];
      Pigeonhole(n, init);
      Pigeonhole(n, hs);
      JoinFires(n, consumeErrors, canceller, init);
      CutStep(n, hs);
      RefiredStep(n, flags, hs, 0);
      RunOk(n, flags, init);
      JoinStep(Run(n, flags, init), flags, h, n, Number(init), Cut(n, init), Refired(n, flags, init));
    }
  }

  lemma JoinRefuses(s: ListState, flags: Flags, success: bool, n: nat, number: nat, cut: bool, refired: bool)
    requires flags == Join(flags.consumeErrors, flags.canceller) && ListOk(s, flags)
    requires JoinIs(s, flags.canceller, n, number, cut, refired) && number < n
    ensures Refuses(s, flags, success) <==> s.side == 1 && !s.silentlyCancelled && number + 1 == n
    ensures s.side == 1 ==> cut
  {
  }

  /** A member keeps its slot and goes on with its own value, or with null after an error
      when errors are consumed, exactly unless it is the last to complete and the list has
      been cancelled, is on its error side and throws. */
  lemma JoinDisturbsIff(n: nat, consumeErrors: bool, canceller: Canceller, hs: seq<Happening>, k: nat)
    requires Proper(n, hs) && k < |hs| && hs[k].Completes?
    ensures var flags, c := Join(consumeErrors, canceller), hs[k].member;
      var before := Run(n, flags, hs[..k]);
      var throws := before.side == 1 && !before.silentlyCancelled && Number(hs[..k + 1]) == n;
      var own := if !Success(c) && consumeErrors then PassedNull else PassedOn(c.value);
      && (LastPassed(n, flags, hs[..k + 1]) == own <==> !throws)
      && (Run(n, flags, hs).resultList[c.index] == Some((Success(c), c.value)) <==> !(throws && Success(c)))
      && (throws ==> Cut(n, hs[..k]))
  {
    var flags, before, upTo, c := Join(consumeErrors, canceller), hs[..k], hs[..k + 1], hs[k].member;
    assert upTo[..k] == before && Number(upTo) == Number(before) + 1;
    Pigeonhole(n, upTo);
    JoinFires(n, consumeErrors, canceller, before);
    RunOk(n, flags, before);
    var s := Run(n, flags, before);
    JoinRefuses(s, flags, Success(c), n, Number(before), Cut(n, before), Refired(n, flags, before));
    SlotKeptIff(n, flags, hs, k);
    assert Overwrites(s, flags, c) <==> Success(c) && Refuses(s, flags, Success(c));
    DisturbsIff(s, flags, c);
  }

  lemma CutEarlier(n: nat, hs: seq<Happening>, k: nat)
    requires k <= |hs| && Cut(n, hs[..k])
    ensures Cut(n, hs)
  {
    var j: nat :| CutAt(n, hs[..k], j);
    assert hs[..k][..j] == hs[..j];
    assert CutAt(n, hs, j);
  }

  /** The completed list does not depend on the order of completion, if it is not cancelled
      before it is complete. */
  lemma JoinOrderInvisible(n: nat, consumeErrors: bool, canceller: Canceller, hs: seq<Happening>, gs: seq<Happening>)
    requires Proper(n, hs) && Proper(n, gs) && Number(hs) == n && Number(gs) == n
    requires forall c :: Completes(c) in hs <==> Completes(c) in gs
    ensures var flags := Join(consumeErrors, canceller);
      !Cut(n, hs) && !Cut(n, gs) ==> Run(n, flags, hs).fired == Run(n, flags, gs).fired
  {
    var flags := Join(consumeErrors, canceller);
    JoinFires(n, consumeErrors, canceller, hs);
    JoinFires(n, consumeErrors, canceller, gs);
    Pigeonhole(n, hs);
    if !Cut(n, hs) && !Cut(n, gs) {
      var a, b := Run(n, flags, hs).resultList, Run(n, flags, gs).resultList;
      forall i: nat | i < n ensures a[i] == b[i] {
        assert i in UpTo(n);
        CompletedAre(hs, i);
        var k :| 0 <= k < |hs| && hs[k].Completes? && hs[k].member.index == i;
        assert Completes(hs[k].member) in hs;
        var m :| 0 <= m < |gs| && gs[m] == Completes(hs[k].member);
        UncutSlot(n, consumeErrors, canceller, hs, k);
        UncutSlot(n, consumeErrors, canceller, gs, m);
      }
      assert a == b;
    }
  }

  lemma UncutSlot(n: nat, consumeErrors: bool, canceller: Canceller, hs: seq<Happening>, k: nat)
    requires Proper(n, hs) && k < |hs| && hs[k].Completes? && !Cut(n, hs)
    ensures var c := hs[k].member;
      Run(n, Join(consumeErrors, canceller), hs).resultList[c.index] == Some((Success(c), c.value))
  {
    JoinDisturbsIff(n, consumeErrors, canceller, hs, k);
    if Cut(n, hs[..k]) {
      CutEarlier(n, hs, k);
    }
  }

  // ---- gatherResults ----

  const GATHER := Flags(false, true, false, NoCanceller)

  /** The callback `gatherResults` adds: the values of the result list. */
  function Values(resultList: seq<Option<(bool, Value)>>): seq<Value>
    requires forall i :: 0 <= i < |resultList| ==> resultList[i].Some?
  {
    seq(|resultList|, i requires 0 <= i < |resultList| => resultList[i].value.1)
  }

  function FirstFailure(hs: seq<Happening>): (first: Option<Value>)
    ensures first.Some? ==> IsError(first.value)
  {
    if hs == [] then None
    else
      var earlier, last := FirstFailure(hs[..|hs| - 1]), hs[|hs| - 1];
      if earlier.Some? || !last.Completes? || Success(last.member) then earlier else Some(last.member.value)
  }

  /** The list is cancelled at happening k, before a member has failed or all are done. */
  predicate GatherCutAt(n: nat, hs: seq<Happening>, k: nat) {
    CutAt(n, hs, k) && FirstFailure(hs[..k]).None?
  }

  ghost predicate GatherCut(n: nat, hs: seq<Happening>) {
    exists k: nat :: GatherCutAt(n, hs, k)
  }

  lemma GatherCutStep(n: nat, hs: seq<Happening>)
    requires hs != []
    ensures GatherCut(n, hs) <==> GatherCut(n, hs[..|hs| - 1]) || GatherCutAt(n, hs, |hs| - 1)
  {
    var init := hs[..|hs| - 1];
    if GatherCut(n, hs) {
      var k: nat :| GatherCutAt(n, hs, k);
      if k < |init| {
        assert init[..k] == hs[..k];
        assert GatherCutAt(n, init, k);
      }
    }
    if GatherCut(n, init) {
      var k: nat :| GatherCutAt(n, init, k);
      assert init[..k] == hs[..k];
      assert GatherCutAt(n, hs, k);
    }
  }

  /** A gathering list of n after `number` completions, with the first failure among them,
      cancelled before it was fired by them (`cut`), and fired once more after that
      (`refired`). */
  ghost predicate GatherIs(s: ListState, n: nat, number: nat, failure: Option<Value>, cut: bool, refired: bool) {
    && |s.resultList| == n
    && (!cut ==>
          s.fired == match failure
                     case Some(v) => WithError(v)
                     case None => if number == n then WithList(s.resultList) else NotYet)
    && (cut && !refired ==> s.fired == WithCancel(CancelledError))
    && (refired ==> cut && !s.fired.NotYet?)
    && (refired && failure.None? ==> number == n && s.fired == WithList(s.resultList))
    && (s.silentlyCancelled <==> cut && !refired)
    && (s.side == -1 <==> s.fired.NotYet?)
    && (number < n || failure.None? ==> s.finishedCount == number)
  }

  function FailureAfter(failure: Option<Value>, h: Happening): Option<Value> {
    if failure.Some? || !h.Completes? || Success(h.member) then failure else Some(h.member.value)
  }

  lemma GatherStep(s: ListState, h: Happening, n: nat, number: nat, failure: Option<Value>, cut: bool, refired: bool)
    requires ListOk(s, GATHER) && GatherIs(s, n, number, failure, cut, refired) && number <= n
    requires h.Completes? ==> h.member.index < n && number < n
    ensures GatherIs(Step(s, GATHER, h), n, if h.Completes? then number + 1 else number, FailureAfter(failure, h),
                     cut || (h.CancelsList? && number < n && failure.None?),
                     refired || (h.Completes? && Refires(s, GATHER, h.member)))
  {
    if h.Completes? {
      CompleteWrites(s, GATHER, h.member);
    }
  }

  /** The state of a gathering list: fired with its first failure, or with the full list
      when all members have succeeded, else not fired; unless it is cancelled before, and
      then that stays until it is fired once more. Until the last member has completed
      the count is exact. */
  lemma {:induction false} GatherState(n: nat, hs: seq<Happening>)
    requires Proper(n, hs)
    ensures GatherIs(Run(n, GATHER, hs), n, Number(hs), FirstFailure(hs), GatherCut(n, hs), Refired(n, GATHER, hs))
    decreases |hs|
  {
    if hs != [] {
      var init, h := hs[..|hs| - 1], hs[|hs| - 1];
      Pigeonhole(n, init);
      Pigeonhole(n, hs);
      GatherState(n, init);
      GatherCutStep(n, hs);
      RefiredStep(n, GATHER, hs, 0);
      RunOk(n, GATHER, init);
      GatherStep(Run(n, GATHER, init), h, n, Number(init), FirstFailure(init), GatherCut(n, init),
                 Refired(n, GATHER, init));
    }
  }

  /** When all members succeed, in whatever order, the values stand in list order, and the
      list has been fired with them, unless it was cancelled before and its last member
      was not let through. */
  lemma GatherValues(n: nat, hs: seq<Happening>)
    requires Proper(n, hs) && Number(hs) == n && FirstFailure(hs).None?
    ensures var s := Run(n, GATHER, hs);
      && (s.fired == WithList(s.resultList) <==> !GatherCut(n, hs) || Refired(n, GATHER, hs))
      && (forall i :: 0 <= i < n ==> s.resultList[i].Some?)
      && forall k :: 0 <= k < |hs| && hs[k].Completes? ==>
        Values(s.resultList)[hs[k].member.index] == hs[k].member.value
  {
    GatherState(n, hs);
    Pigeonhole(n, hs);
    var s := Run(n, GATHER, hs);
    forall k | 0 <= k < |hs| && hs[k].Completes?
      ensures s.resultList[hs[k].member.index] == Some((Success(hs[k].member), hs[k].member.value))
    {
      NoFailureBefore(hs, k);
      GatherState(n, hs[..k]);
      NumberBefore(hs, k);
      SlotKeptIff(n, GATHER, hs, k);
    }
    forall i: nat | i < n ensures s.resultList[i].Some? {
      assert i in UpTo(n);
      CompletedAre(hs, i);
    }
  }

  lemma {:induction false} NoFailureBefore(hs: seq<Happening>, k: nat)
    requires k <= |hs| && FirstFailure(hs).None?
    ensures FirstFailure(hs[..k]).None?
    decreases |hs|
  {
    if k < |hs| {
      NoFailureBefore(hs[..|hs| - 1], k);
      assert hs[..|hs| - 1][..k] == hs[..k];
    } else {
      assert hs[..k] == hs;
    }
  }

  lemma {:induction false} NumberBefore(hs: seq<Happening>, k: nat)
    requires k < |hs| && hs[k].Completes?
    ensures Number(hs[..k]) < Number(hs)
    decreases |hs|
  {
    if k < |hs| - 1 {
      NumberBefore(hs[..|hs| - 1], k);
      assert hs[..|hs| - 1][..k] == hs[..k];
    }
  }

  /** A member of a gathering list is disturbed exactly when the list is on its error side,
      not silently cancelled, and the member fails as well or is the last to complete: its
      chain then goes on with the list's AlreadyCalledError. A success that is disturbed
      loses its slot. */
  lemma GatherDisturbsIff(n: nat, hs: seq<Happening>)
    requires Proper(n, hs) && hs != [] && hs[|hs| - 1].Completes?
    ensures var before, c := Run(n, GATHER, hs[..|hs| - 1]), hs[|hs| - 1].member;
      var throws := before.side == 1 && !before.silentlyCancelled && (!Success(c) || Number(hs) == n);
      && LastPassed(n, GATHER, hs) == (if throws then Threw else PassedOn(c.value))
      && (Run(n, GATHER, hs).resultList[c.index] == Some((Success(c), c.value)) <==> !(throws && Success(c)))
  {
    Pigeonhole(n, hs);
    GatherState(n, hs[..|hs| - 1]);
    RunOk(n, GATHER, hs[..|hs| - 1]);
    SlotKeptIff(n, GATHER, hs, |hs| - 1);
  }

  /** A list whose own chain leaves it where it was fired is on its error side exactly once
      a member has failed, or between a cancellation and the last completion. */
  lemma {:induction false} GatherSide(n: nat, hs: seq<Happening>)
    requires Proper(n, hs) && forall k :: 0 <= k < |hs| ==> !hs[k].Turns?
    ensures Run(n, GATHER, hs).side == 1 <==> FirstFailure(hs).Some? || (GatherCut(n, hs) && Number(hs) < n)
    ensures FirstFailure(hs).Some? ==> !Run(n, GATHER, hs).silentlyCancelled
    decreases |hs|
  {
    if hs != [] {
      var init, h := hs[..|hs| - 1], hs[|hs| - 1];
      Pigeonhole(n, init);
      Pigeonhole(n, hs);
      GatherSide(n, init);
      GatherState(n, init);
      GatherCutStep(n, hs);
      RunOk(n, GATHER, init);
      SideStep(Run(n, GATHER, init), h, n, Number(init), FirstFailure(init), GatherCut(n, init),
               Refired(n, GATHER, init));
    }
  }

  ghost predicate SideIs(s: ListState, n: nat, number: nat, failure: Option<Value>, cut: bool) {
    && (s.side == 1 <==> failure.Some? || (cut && number < n))
    && (failure.Some? ==> !s.silentlyCancelled)
  }

  lemma SideStep(s: ListState, h: Happening, n: nat, number: nat, failure: Option<Value>, cut: bool, refired: bool)
    requires ListOk(s, GATHER) && GatherIs(s, n, number, failure, cut, refired) && number <= n && !h.Turns?
    requires h.Completes? ==> h.member.index < n && number < n
    requires SideIs(s, n, number, failure, cut)
    ensures SideIs(Step(s, GATHER, h), n, if h.Completes? then number + 1 else number, FailureAfter(failure, h),
                   cut || (h.CancelsList? && number < n && failure.None?))
  {
  }

  /** Two members, the first fails, the second succeeds: the second one's slot ends up
      with the list's own error, and three completions are counted. */
  lemma GatherOverwrites(message: int, data: int)
    ensures var hs := [Completes(Completion(0, Error(message))), Completes(Completion(1, Plain(data)))];
      var s := Run(2, GATHER, hs);
      s.resultList[1] == Some((false, AlreadyCalledError)) && s.finishedCount == 3
  {
    var first := [Completes(Completion(0, Error(message)))];
    var hs := first + [Completes(Completion(1, Plain(data)))];
    assert hs[..1] == first && first[..0] == [];
    var s0 := Run(2, GATHER, []);
    var s1 := Run(2, GATHER, first);
    assert s1 == Step(s0, GATHER, first[0]);
    assert Run(2, GATHER, hs) == Step(s1, GATHER, hs[1]);
  }

  /** A member fails, the list's own chain recovers, and then the other member fails: nobody is
      disturbed, and both failures are kept. */
  lemma GatherRecovers(first: int, second: int)
    ensures var hs := [Completes(Completion(0, Error(first))), Turns(0), Completes(Completion(1, Error(second)))];
      && LastPassed(2, GATHER, hs) == PassedOn(Error(second))
      && Run(2, GATHER, hs).fired == WithError(Error(first))
      && Run(2, GATHER, hs).resultList == [Some((false, Error(first))), Some((false, Error(second)))]
  {
    var hs := [Completes(Completion(0, Error(first))), Turns(0), Completes(Completion(1, Error(second)))];
    assert hs[..2][..1] == hs[..1] && hs[..1][..0] == [];
    var s1 := Run(2, GATHER, hs[..1]);
    assert s1 == Step(Run(2, GATHER, []), GATHER, hs[0]);
    var s2 := Run(2, GATHER, hs[..2]);
    assert s2 == Step(s1, GATHER, hs[1]);
    assert Run(2, GATHER, hs) == Step(s2, GATHER, hs[2]);
  }

  /** A list is cancelled, and then a member fails: the failure fires the list a second
      time and disturbs nobody. */
  lemma GatherCancelled(message: int)
    ensures var cancel, hs := [CancelsList], [CancelsList, Completes(Completion(0, Error(message)))];
      && Run(2, GATHER, cancel).fired == WithCancel(CancelledError)
      && Run(2, GATHER, hs).fired == WithError(Error(message))
      && LastPassed(2, GATHER, hs) == PassedOn(Error(message))
  {
    var cancel, hs := [CancelsList], [CancelsList, Completes(Completion(0, Error(message)))];
    assert hs[..1] == cancel && cancel[..0] == [];
    var s0 := Run(2, GATHER, []);
    assert Run(2, GATHER, cancel) == Step(s0, GATHER, CancelsList);
    assert Run(2, GATHER, hs) == Step(Run(2, GATHER, cancel), GATHER, hs[1]);
  }

  // ---- the object ----

  class DeferredList {
    const flags: Flags
    var resultList: seq<Option<(bool, Value)>>
    var finishedCount: nat
    var firedWith: Fired
    var fired: int
    var silentlyCancelled: bool

    function Abs(): ListState
      reads this
    {
      ListState(resultList, finishedCount, firedWith, fired, silentlyCancelled)
    }

    constructor (n: nat, flags: Flags)
      ensures Abs() == Init(n, flags) && this.flags == flags
    {
      this.flags := flags;
      var empty := seq(n, _ => None);
      resultList := empty;
      firedWith := if n == 0 && !flags.fireOnOneCallback then WithList(empty) else NotYet;
      fired := if n == 0 && !flags.fireOnOneCallback then 0 else -1;
      finishedCount := 0;
      silentlyCancelled := false;
    }

    /** `callback` and `errback` of the list itself, with the check for a second call. */
    method FireWith(value: Fired) returns (ok: bool)
      requires !value.NotYet?
      modifies `fired, `firedWith, `silentlyCancelled
      ensures ok == (old(fired) == -1 || old(silentlyCancelled))
      ensures firedWith == if ok then value else old(firedWith)
      ensures fired == if ok then FirstSide(value) else old(fired)
      ensures silentlyCancelled == (old(silentlyCancelled) && old(fired) == -1)
    {
      if fired != -1 {
        if !silentlyCancelled {
          return false;
        }
        silentlyCancelled := false;
      }
      firedWith := value;
      fired := FirstSide(value);
      ok := true;
    }

    method CallCbDeferred(index: nat, success: bool, value: Value) returns (passed: Passed)
      requires index < |resultList|
      modifies this
      ensures (Abs(), passed) == CbDeferred(old(Abs()), flags, index, success, value)
    {
      resultList := resultList[index := Some((success, value))];
      finishedCount := finishedCount + 1;
      if fired != 0 {
        var ok := true;
        if success && flags.fireOnOneCallback {
          ok := FireWith(WithOne(index, value));
        } else if !success && flags.fireOnOneErrback {
          ok := FireWith(WithError(AsError(value)));
        } else if finishedCount == |resultList| {
          ok := FireWith(WithList(resultList));
        }
        if !ok {
          return Threw;
        }
      }
      passed := if !success && flags.consumeErrors then PassedNull else PassedOn(value);
    }

    /** A member's chain reaches the two pairs that the constructor added to it. */
    method MemberCompletes(c: Completion) returns (passed: Passed)
      requires c.index < |resultList|
      modifies this
      ensures (Abs(), passed) == Complete(old(Abs()), flags, c)
    {
      if Success(c) {
        passed := CallCbDeferred(c.index, true, c.value);
        if passed.Threw? {
          passed := CallCbDeferred(c.index, false, AlreadyCalledError);
        }
      } else {
        passed := CallCbDeferred(c.index, false, c.value);
      }
    }

    /** `cancel`, as inherited from Deferred. */
    method CallCancel()
      modifies this
      ensures Abs() == CancelList(old(Abs()), flags)
    {
      if fired == -1 {
        silentlyCancelled := flags.canceller.NoCanceller?;
        firedWith := WithCancel(CancelValue(flags.canceller));
        fired := FirstSide(firedWith);
      }
    }
  }
}
