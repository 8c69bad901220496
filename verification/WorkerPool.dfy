/** `SelectSocketsThreadPool`: a selector thread hands readable channels to a fixed pool
    of worker threads; a channel's read interest is off while a worker serves it. A state
    machine over the atomic steps of the selector and of every worker. */
module WorkerPool {
  import opened Basics

  type Key = nat

  /** Where a worker's thread is in `run`, whose monitor it holds except while waiting. */
  datatype Phase =
    | Starting  // started, has not taken its monitor yet
    | Waiting   // inside wait()
    | Woken     // notified or spuriously woken, about to test its key
    | Draining  // inside drainChannel, read interest not restored yet
    | Finished  // drainChannel is over: interest restored, or channel closed
    | Cleared   // key set to null, about to call returnWorker
    | Returned  // back in the idle list, has not called wait() again yet

  datatype Worker = Worker(phase: Phase, key: Option<Key>)

  /** Where the selection loop is. */
  datatype Selector =
    | Selecting
    | Iterating(todo: seq<Key>)
    | Assigned(worker: nat, key: Key, todo: seq<Key>) // between getWorker and serviceChannel

  /** `reading`: the valid keys whose interest set holds OP_READ. `known`: all keys ever. */
  datatype State = State(
    workers: seq<Worker>,
    idle: seq<nat>,
    selector: Selector,
    reading: set<Key>,
    known: set<Key>)

  datatype Action =
    | Register(key: Key)        // accept a connection
    | Select(keys: seq<Key>)    // select() returns
    | Skip                      // the next selected key is not readable
    | GetWorker
    | ServiceChannel
    | EndOfKeys
    | Start(worker: nat)
    | WakeSpuriously(worker: nat)
    | TestKey(worker: nat)
    | Drained(worker: nat)      // read returned 0: interest restored
    | Closed(worker: nat)       // end of stream, or an exception
    | Clear(worker: nat)
    | Return(worker: nat)
    | Wait(worker: nat)

  function Init(poolSize: nat): State {
    State(seq(poolSize, _ => Worker(Starting, None)), seq(poolSize, i => i), Selecting, {}, {})
  }

  predicate At(s: State, w: nat, phase: Phase) {
    w < |s.workers| && s.workers[w].phase == phase
  }

  predicate Distinct<T(==)>(s: seq<T>) {
    forall i, j :: 0 <= i < j < |s| ==> s[i] != s[j]
  }

  predicate AllIn(keys: seq<Key>, these: set<Key>) {
    forall i :: 0 <= i < |keys| ==> keys[i] in these
  }

  predicate Enabled(s: State, a: Action) {
    match a
    case Register(key) => !s.selector.Assigned? && key !in s.known
    case Select(keys) => s.selector.Selecting? && Distinct(keys) && AllIn(keys, s.reading)
    case Skip => s.selector.Iterating? && s.selector.todo != []
    case GetWorker => s.selector.Iterating? && s.selector.todo != []
    case ServiceChannel => // waits for the worker's monitor
      && s.selector.Assigned?
      && (At(s, s.selector.worker, Starting) || At(s, s.selector.worker, Waiting) || At(s, s.selector.worker, Woken))
    case EndOfKeys => s.selector == Iterating([])
    case Start(w) => At(s, w, Starting)
    case WakeSpuriously(w) => At(s, w, Waiting)
    case TestKey(w) => At(s, w, Woken)
    case Drained(w) => At(s, w, Draining) && s.workers[w].key.Some?
    case Closed(w) => At(s, w, Draining)
    case Clear(w) => At(s, w, Finished)
    case Return(w) => At(s, w, Cleared)
    case Wait(w) => At(s, w, Returned)
  }

  function Move(s: State, w: nat, phase: Phase): State
    requires w < |s.workers|
  {
    s.(workers := s.workers[w := s.workers[w].(phase := phase)])
  }

  function Step(s: State, a: Action): State
    requires Enabled(s, a)
  {
    match a
    case Register(key) => s.(reading := s.reading + {key}, known := s.known + {key})
    case Select(keys) => s.(selector := Iterating(keys))
    case Skip => s.(selector := Iterating(s.selector.todo[1..]))
    case GetWorker =>
      var k, rest := s.selector.todo[0], s.selector.todo[1..];
      if s.idle == [] then s.(selector := Iterating(rest))
      else s.(selector := Assigned(s.idle[0], k, rest), idle := s.idle[1..])
    case ServiceChannel =>
      var w, k := s.selector.worker, s.selector.key;
      var phase := if s.workers[w].phase.Waiting? then Woken else s.workers[w].phase;
      s.(workers := s.workers[w := Worker(phase, Some(k))],
         reading := s.reading - {k},
         selector := Iterating(s.selector.todo))
    case EndOfKeys => s.(selector := Selecting)
    case Start(w) => Move(s, w, Waiting)
    case WakeSpuriously(w) => Move(s, w, Woken)
    case TestKey(w) => Move(s, w, if s.workers[w].key.None? then Waiting else Draining)
    case Drained(w) => Move(s, w, Finished).(reading := s.reading + {s.workers[w].key.value})
    case Closed(w) => Move(s, w, Finished)
    case Clear(w) => s.(workers := s.workers[w := Worker(Cleared, None)])
    case Return(w) => Move(s, w, Returned).(idle := s.idle + [w])
    case Wait(w) => Move(s, w, Waiting)
  }

  predicate IsSchedule(s: State, schedule: seq<Action>)
    decreases |schedule|
  {
    schedule == [] || (Enabled(s, schedule[0]) && IsSchedule(Step(s, schedule[0]), schedule[1..]))
  }

  function Exec(s: State, schedule: seq<Action>): State
    requires IsSchedule(s, schedule)
    decreases |schedule|
  {
    if schedule == [] then s else Exec(Step(s, schedule[0]), schedule[1..])
  }

  // ---- the invariant ----

  /** A worker that could be handed a key. */
  predicate Free(w: Worker) {
    w.key.None? && (w.phase.Starting? || w.phase.Waiting? || w.phase.Woken? || w.phase.Returned?)
  }

  /** A worker in charge of a channel: from serviceChannel until drainChannel is over. */
  predicate Serving(w: Worker) {
    w.key.Some? && !w.phase.Finished?
  }

  predicate Consistent(w: Worker) {
    match w.phase
    case Draining => w.key.Some?
    case Finished => w.key.Some?
    case Cleared => w.key.None?
    case Returned => w.key.None?
    case _ => true
  }

  function Todo(s: State): seq<Key> {
    match s.selector
    case Selecting => []
    case Iterating(todo) => todo
    case Assigned(_, key, todo) => [key] + todo
  }

  predicate IsAssigned(s: State, w: nat) {
    s.selector.Assigned? && s.selector.worker == w
  }

  /** A worker is in exactly one place: idle, picked by the selector, or busy. */
  predicate Placed(s: State, w: nat) {
    w < |s.workers| ==>
      && Consistent(s.workers[w])
      && (w in s.idle ==> Free(s.workers[w]) && !IsAssigned(s, w))
      && (IsAssigned(s, w) ==> Free(s.workers[w]))
      && (w !in s.idle && !IsAssigned(s, w) ==> !Free(s.workers[w]))
      && (Serving(s.workers[w]) ==> s.workers[w].key.value in s.known - s.reading)
  }

  /** No two workers are in charge of the same channel. */
  predicate Apart(s: State, v: nat, w: nat) {
    v < |s.workers| && w < |s.workers| && v != w && Serving(s.workers[v]) && Serving(s.workers[w]) ==>
      s.workers[v].key != s.workers[w].key
  }

  predicate Selected(s: State) {
    && Distinct(Todo(s)) && AllIn(Todo(s), s.reading) && s.reading <= s.known
    && (s.selector.Assigned? ==> s.selector.worker < |s.workers|)
  }

  predicate Listed(s: State) {
    Distinct(s.idle) && forall i :: 0 <= i < |s.idle| ==> s.idle[i] < |s.workers|
  }

  ghost predicate Inv(s: State) {
    && Selected(s) && Listed(s)
    && (forall w: nat :: Placed(s, w))
    && (forall v: nat, w: nat :: Apart(s, v, w))
  }

  lemma InitInv(poolSize: nat)
    ensures Inv(Init(poolSize))
  {
    var s := Init(poolSize);
    forall w: nat
      ensures Placed(s, w)
    {
      if w < poolSize {
        assert s.idle[w] == w;
      }
    }
  }

  lemma DropFirst(keys: seq<Key>, these: set<Key>)
    requires keys != [] && Distinct(keys) && AllIn(keys, these)
    ensures Distinct(keys[1..]) && AllIn(keys[1..], these) && AllIn(keys[1..], these - {keys[0]})
  {
    forall i | 0 <= i < |keys| - 1
      ensures keys[1..][i] in these - {keys[0]}
    {
      assert keys[1..][i] == keys[i + 1];
    }
  }

  lemma StepSelected(s: State, a: Action)
    requires Inv(s) && Enabled(s, a)
    ensures Selected(Step(s, a))
  {
    if Todo(s) != [] {
      DropFirst(Todo(s), s.reading);
    }
    match a {
      case GetWorker =>
        assert Todo(Step(s, a)) == if s.idle == [] then Todo(s)[1..] else Todo(s);
      case ServiceChannel =>
        assert Todo(Step(s, a)) == Todo(s)[1..];
      case Drained(w) =>
        assert Placed(s, w);
      case _ =>
    }
  }

  lemma StepListed(s: State, a: Action)
    requires Inv(s) && Enabled(s, a)
    ensures Listed(Step(s, a))
  {
    if a.Return? {
      assert Placed(s, a.worker);
    }
  }

  lemma StepPlaced(s: State, a: Action, w: nat)
    requires Inv(s) && Enabled(s, a)
    ensures Placed(Step(s, a), w)
  {
    assert Placed(s, w);
    match a {
      case GetWorker =>
        if s.idle != [] {
          assert s.idle == [s.idle[0]] + s.idle[1..];
        }
      case ServiceChannel =>
        assert Todo(s)[0] in s.reading;
      case Drained(v) =>
        assert Placed(s, v) && Apart(s, v, w);
      case _ =>
    }
  }

  lemma StepApart(s: State, a: Action, v: nat, w: nat)
    requires Inv(s) && Enabled(s, a)
    ensures Apart(Step(s, a), v, w)
  {
    assert Placed(s, w) && Placed(s, v) && Apart(s, v, w);
    if a.ServiceChannel? {
      assert Todo(s)[0] in s.reading;
    }
  }

  lemma StepInv(s: State, a: Action)
    requires Inv(s) && Enabled(s, a)
    ensures Inv(Step(s, a))
  {
    StepSelected(s, a);
    StepListed(s, a);
    forall w: nat
      ensures Placed(Step(s, a), w)
    {
      StepPlaced(s, a, w);
    }
    forall v: nat, w: nat
      ensures Apart(Step(s, a), v, w)
    {
      StepApart(s, a, v, w);
    }
  }

  lemma {:induction false} ExecInv(s: State, schedule: seq<Action>)
    requires Inv(s) && IsSchedule(s, schedule)
    ensures Inv(Exec(s, schedule)) && |Exec(s, schedule).workers| == |s.workers|
    decreases |schedule|
  {
    if schedule != [] {
      StepInv(s, schedule[0]);
      ExecInv(Step(s, schedule[0]), schedule[1..]);
    }
  }

  // ---- safety ----

  function Elements(s: seq<nat>): set<nat> {
    set i | 0 <= i < |s| :: s[i]
  }

  lemma {:induction false} ElementsSize(s: seq<nat>)
    requires Distinct(s)
    ensures |Elements(s)| == |s|
  {
    if s != [] {
      var n := |s| - 1;
      ElementsSize(s[..n]);
      assert s[n] !in Elements(s[..n]);
      assert Elements(s) == Elements(s[..n]) + {s[n]} by {
        assert forall i :: 0 <= i < n ==> s[..n][i] == s[i];
      }
    }
  }

  /** The workers that are not in the idle list. */
  function CheckedOut(s: State): set<nat> {
    UpTo(|s.workers|) - Elements(s.idle)
  }

  predicate Busy(s: State, w: nat)
    requires w < |s.workers|
  {
    IsAssigned(s, w) || s.workers[w].key.Some? || s.workers[w].phase.Cleared?
  }

  /** In every reachable state no worker is in the idle list twice, idle and checked-out
      workers make up the pool, and a worker is checked out exactly while the selector has
      picked it, it holds a key, or it is between clearing its key and returning. */
  lemma IdleList(poolSize: nat, schedule: seq<Action>)
    requires IsSchedule(Init(poolSize), schedule)
    ensures var s := Exec(Init(poolSize), schedule);
      && Distinct(s.idle)
      && |s.idle| + |CheckedOut(s)| == poolSize
      && forall w: nat :: w < |s.workers| ==> (w in s.idle <==> !Busy(s, w))
  {
    InitInv(poolSize);
    ExecInv(Init(poolSize), schedule);
    var s := Exec(Init(poolSize), schedule);
    forall w: nat | w < |s.workers|
      ensures w in s.idle <==> !Busy(s, w)
    {
      assert Placed(s, w);
    }
    ElementsSize(s.idle);
    assert Elements(s.idle) <= UpTo(poolSize);
    assert |CheckedOut(s)| == |UpTo(poolSize)| - |Elements(s.idle)|;
  }

  /** In every reachable state, a channel some worker is draining has its read interest
      off, is not waiting in the selection loop, and no other worker is draining it. */
  lemma OneDrainer(poolSize: nat, schedule: seq<Action>, w: nat)
    requires IsSchedule(Init(poolSize), schedule)
    requires At(Exec(Init(poolSize), schedule), w, Draining)
    ensures var s := Exec(Init(poolSize), schedule);
      && s.workers[w].key.Some?
      && s.workers[w].key.value !in s.reading
      && s.workers[w].key.value !in Todo(s)
      && forall v: nat :: v != w && At(s, v, Draining) ==> s.workers[v].key != s.workers[w].key
  {
    InitInv(poolSize);
    ExecInv(Init(poolSize), schedule);
    var s := Exec(Init(poolSize), schedule);
    assert Placed(s, w);
    forall v: nat | v != w && At(s, v, Draining)
      ensures s.workers[v].key != s.workers[w].key
    {
      assert Placed(s, v) && Apart(s, v, w);
    }
  }

  // ---- where every key is ----

  /** A worker is in charge of the key. */
  predicate InCharge(s: State, w: nat, key: Key) {
    w < |s.workers| && Serving(s.workers[w]) && s.workers[w].key == Some(key)
  }

  ghost predicate SomeInCharge(s: State, key: Key) {
    exists w: nat :: InCharge(s, w, key)
  }

  /** The keys whose channel is closed on the way. */
  function ClosedOn(s: State, schedule: seq<Action>): set<Key>
    requires IsSchedule(s, schedule)
    decreases |schedule|
  {
    if schedule == [] then {}
    else
      var a := schedule[0];
      (if a.Closed? && s.workers[a.worker].key.Some? then {s.workers[a.worker].key.value} else {})
      + ClosedOn(Step(s, a), schedule[1..])
  }

  /** A known key is of interest for reading, or a worker is in charge of it, or it is closed,
      and only one of these. */
  ghost predicate InPlace(s: State, key: Key, closed: bool) {
    key in s.known ==>
      if closed then key !in s.reading && !SomeInCharge(s, key)
      else key in s.reading <==> !SomeInCharge(s, key)
  }

  lemma StepInCharge(s: State, a: Action, key: Key)
    requires Inv(s) && Enabled(s, a)
    ensures SomeInCharge(Step(s, a), key) <==>
      || (SomeInCharge(s, key) && !((a.Drained? || a.Closed?) && InCharge(s, a.worker, key)))
      || (a.ServiceChannel? && s.selector.key == key)
  {
    var t := Step(s, a);
    if w: nat :| InCharge(s, w, key) {
      assert Placed(s, w);
      if a.ServiceChannel? {
        assert Placed(s, s.selector.worker);
      }
      if (a.Drained? || a.Closed?) && a.worker == w {
        forall v: nat ensures !InCharge(t, v, key) {
          assert Apart(s, v, w);
        }
      } else {
        assert InCharge(t, w, key);
      }
    }
    if w: nat :| InCharge(t, w, key) {
      assert Placed(s, w);
      if a.ServiceChannel? && s.selector.worker == w {
        assert s.selector.key == key;
      } else {
        assert InCharge(s, w, key);
        if a.Drained? || a.Closed? {
          assert Apart(s, a.worker, w);
        }
      }
    }
    if a.ServiceChannel? && s.selector.key == key {
      assert Placed(s, s.selector.worker);
      assert InCharge(t, s.selector.worker, key);
    }
  }

  lemma StepInPlace(s: State, a: Action, key: Key, closed: bool)
    requires Inv(s) && Enabled(s, a) && InPlace(s, key, closed) && (closed ==> key in s.known)
    ensures InPlace(Step(s, a), key, closed || (a.Closed? && s.workers[a.worker].key == Some(key)))
  {
    StepInCharge(s, a, key);
    if a.Drained? || a.Closed? {
      assert Placed(s, a.worker) && InCharge(s, a.worker, s.workers[a.worker].key.value);
    }
    if a.ServiceChannel? {
      assert Todo(s)[0] == s.selector.key;
    }
    if SomeInCharge(s, key) {
      var w: nat :| InCharge(s, w, key);
      assert Placed(s, w);
    }
  }

  lemma {:induction false} ExecInPlace(s: State, schedule: seq<Action>, key: Key, closed: bool)
    requires Inv(s) && IsSchedule(s, schedule) && InPlace(s, key, closed) && (closed ==> key in s.known)
    ensures InPlace(Exec(s, schedule), key, closed || key in ClosedOn(s, schedule))
    decreases |schedule|
  {
    if schedule != [] {
      var a := schedule[0];
      StepInPlace(s, a, key, closed);
      StepInv(s, a);
      if a.Closed? {
        assert Placed(s, a.worker);
      }
      ExecInPlace(Step(s, a), schedule[1..], key, closed || (a.Closed? && s.workers[a.worker].key == Some(key)));
    }
  }

  /** In every reachable state a channel that was accepted and not closed either has its read
      interest on, or exactly then a worker is in charge of it; a closed one has neither. */
  lemma NoChannelLost(poolSize: nat, schedule: seq<Action>, key: Key)
    requires IsSchedule(Init(poolSize), schedule) && key in Exec(Init(poolSize), schedule).known
    ensures var s := Exec(Init(poolSize), schedule);
      if key in ClosedOn(Init(poolSize), schedule) then key !in s.reading && !SomeInCharge(s, key)
      else key in s.reading <==> !SomeInCharge(s, key)
  {
    InitInv(poolSize);
    ExecInPlace(Init(poolSize), schedule, key, false);
  }

  // ---- a drained channel comes back ----

  /** The schedule ends where the key is about to be handed to a worker. */
  ghost predicate Reassigns(s: State, schedule: seq<Action>, key: Key) {
    && IsSchedule(s, schedule)
    && Enabled(Exec(s, schedule), ServiceChannel) && Exec(s, schedule).selector.key == key
  }

  lemma Before(s: State, a: Action, rest: seq<Action>, key: Key)
    requires Enabled(s, a) && Reassigns(Step(s, a), rest, key)
    ensures Reassigns(s, [a] + rest, key)
  {
    FirstStep(s, a, rest);
  }

  /** A picked worker that still has to wait does so, and is then ready for its key. */
  lemma AssignedSoon(s: State) returns (schedule: seq<Action>)
    requires Inv(s) && s.selector.Assigned?
    ensures Reassigns(s, schedule, s.selector.key)
    ensures |schedule| <= 1 && forall a :: a in schedule ==> a == Wait(s.selector.worker)
  {
    var w := s.selector.worker;
    assert Placed(s, w);
    if At(s, w, Returned) {
      schedule := [Wait(w)];
      FirstStep(s, Wait(w), []);
      assert [Wait(w)] + [] == [Wait(w)];
    } else {
      schedule := [];
    }
  }

  /** While a worker is idle, every key of interest can be selected and assigned. */
  lemma Reassign(s: State, key: Key) returns (schedule: seq<Action>)
    requires Inv(s) && key in s.reading && s.idle != []
    ensures Reassigns(s, schedule, key)
    decreases match s.selector
              case Selecting => 0
              case Iterating(todo) => 1 + |todo|
              case Assigned(_, _, todo) => 3 + |todo|
  {
    match s.selector
    case Selecting =>
      var s1 := Step(s, Select([key]));
      StepInv(s, Select([key]));
      StepInv(s1, GetWorker);
      var rest := AssignedSoon(Step(s1, GetWorker));
      Before(s1, GetWorker, rest, key);
      Before(s, Select([key]), [GetWorker] + rest, key);
      schedule := [Select([key])] + ([GetWorker] + rest);
    case Iterating(todo) =>
      var a := if todo == [] then EndOfKeys else Skip;
      StepInv(s, a);
      var rest := Reassign(Step(s, a), key);
      Before(s, a, rest, key);
      schedule := [a] + rest;
    case Assigned(w, other, todo) =>
      schedule := AssignedSoon(s);
      if other != key {
        schedule := ReassignAfter(s, key, schedule);
      }
  }

  lemma ReassignAfter(s: State, key: Key, first: seq<Action>) returns (schedule: seq<Action>)
    requires Inv(s) && key in s.reading && s.idle != [] && s.selector.Assigned? && s.selector.key != key
    requires Reassigns(s, first, s.selector.key) && |first| <= 1
    requires forall a :: a in first ==> a == Wait(s.selector.worker)
    ensures Reassigns(s, schedule, key)
    decreases 3 + |s.selector.todo|, 0
  {
    if first == [] {
      StepInv(s, ServiceChannel);
      var rest := Reassign(Step(s, ServiceChannel), key);
      Before(s, ServiceChannel, rest, key);
      schedule := [ServiceChannel] + rest;
    } else {
      var a, s1 := first[0], Step(s, first[0]);
      assert first[0] in first && first == [a] && first[1..] == [];
      StepInv(s, a);
      StepInv(s1, ServiceChannel);
      var rest := Reassign(Step(s1, ServiceChannel), key);
      Before(s1, ServiceChannel, rest, key);
      Before(s, a, [ServiceChannel] + rest, key);
      schedule := [a] + ([ServiceChannel] + rest);
    }
  }

  /** After a channel has been drained, whatever state the pool is in, some schedule selects
      it again and hands it over again: the worker that drained it will do. */
  lemma DrainedAgain(s: State, w: nat) returns (schedule: seq<Action>)
    requires Inv(s) && Enabled(s, Drained(w))
    ensures s.workers[w].key.value in Step(s, Drained(w)).reading
    ensures Reassigns(Step(s, Drained(w)), schedule, s.workers[w].key.value)
  {
    var key, s1 := s.workers[w].key.value, Step(s, Drained(w));
    StepInv(s, Drained(w));
    var s2 := Step(s1, Clear(w));
    StepInv(s1, Clear(w));
    var s3 := Step(s2, Return(w));
    StepInv(s2, Return(w));
    var rest := Reassign(s3, key);
    Before(s2, Return(w), rest, key);
    Before(s1, Clear(w), [Return(w)] + rest, key);
    schedule := [Clear(w)] + ([Return(w)] + rest);
  }

  // ---- the idle list is a queue ----

  /** The workers handed out on the way, and those that come back, in order. */
  function HandedOut(s: State, schedule: seq<Action>): seq<nat>
    requires IsSchedule(s, schedule)
    decreases |schedule|
  {
    if schedule == [] then []
    else
      (if schedule[0].GetWorker? && s.idle != [] then [s.idle[0]] else [])
      + HandedOut(Step(s, schedule[0]), schedule[1..])
  }

  function ComeBack(schedule: seq<Action>): seq<nat> {
    if schedule == [] then []
    else (if schedule[0].Return? then [schedule[0].worker] else []) + ComeBack(schedule[1..])
  }

  lemma StepIsFifo(s: State, a: Action)
    requires Enabled(s, a)
    ensures (if a.GetWorker? && s.idle != [] then [s.idle[0]] else []) + Step(s, a).idle
         == s.idle + (if a.Return? then [a.worker] else [])
  {
  }

  lemma Chain(out: seq<nat>, outs: seq<nat>, now: seq<nat>, idle: seq<nat>, back: seq<nat>, backs: seq<nat>,
              end: seq<nat>)
    requires out + now == idle + back && outs + end == now + backs
    ensures (out + outs) + end == idle + (back + backs)
  {
    assert (out + outs) + end == out + (outs + end);
    assert out + (now + backs) == (out + now) + backs;
    assert (idle + back) + backs == idle + (back + backs);
  }

  /** Workers are handed out in the order in which they have come back. */
  lemma {:induction false} IdleIsFifo(s: State, schedule: seq<Action>)
    requires IsSchedule(s, schedule)
    ensures HandedOut(s, schedule) + Exec(s, schedule).idle == s.idle + ComeBack(schedule)
    decreases |schedule|
  {
    if schedule != [] {
      var a, rest := schedule[0], schedule[1..];
      IdleIsFifo(Step(s, a), rest);
      StepIsFifo(s, a);
      Chain(if a.GetWorker? && s.idle != [] then [s.idle[0]] else [], HandedOut(Step(s, a), rest), Step(s, a).idle,
            s.idle, if a.Return? then [a.worker] else [], ComeBack(rest), Exec(s, schedule).idle);
    }
  }

  // ---- every selected key has its turn ----

  /** The keys that the selection loop has not come to yet. */
  function Rest(s: State): seq<Key> {
    match s.selector
    case Selecting => []
    case Iterating(todo) => todo
    case Assigned(_, _, todo) => todo
  }

  /** The keys that have their turn on the way, readable or not and with a worker or without,
      and those that are selected. */
  function Turns(s: State, schedule: seq<Action>): seq<Key>
    requires IsSchedule(s, schedule)
    decreases |schedule|
  {
    if schedule == [] then []
    else
      (if schedule[0].Skip? || schedule[0].GetWorker? then [Rest(s)[0]] else [])
      + Turns(Step(s, schedule[0]), schedule[1..])
  }

  function SelectedOn(schedule: seq<Action>): seq<Key> {
    if schedule == [] then []
    else (if schedule[0].Select? then schedule[0].keys else []) + SelectedOn(schedule[1..])
  }

  lemma StepTurns(s: State, a: Action)
    requires Enabled(s, a)
    ensures (if a.Skip? || a.GetWorker? then [Rest(s)[0]] else []) + Rest(Step(s, a))
         == Rest(s) + (if a.Select? then a.keys else [])
    ensures a.GetWorker? && s.idle != [] ==> Step(s, a).selector == Assigned(s.idle[0], Rest(s)[0], Rest(Step(s, a)))
  {
  }

  /** The loop comes to every selected key once, in order; and where a worker is idle, that
      worker is picked for the key. */
  lemma {:induction false} KeysInOrder(s: State, schedule: seq<Action>)
    requires IsSchedule(s, schedule)
    ensures Turns(s, schedule) + Rest(Exec(s, schedule)) == Rest(s) + SelectedOn(schedule)
    decreases |schedule|
  {
    if schedule != [] {
      var a, rest := schedule[0], schedule[1..];
      KeysInOrder(Step(s, a), rest);
      StepTurns(s, a);
      Chain(if a.Skip? || a.GetWorker? then [Rest(s)[0]] else [], Turns(Step(s, a), rest), Rest(Step(s, a)),
            Rest(s), if a.Select? then a.keys else [], SelectedOn(rest), Rest(Exec(s, schedule)));
    }
  }

  // ---- what the protocol does not give ----

  /** A notification sent before the worker's first wait is lost. */
  lemma {:induction false} StaysUnserved(s: State, schedule: seq<Action>, w: nat)
    requires Inv(s) && IsSchedule(s, schedule) && WakeSpuriously(w) !in schedule
    requires (At(s, w, Starting) || At(s, w, Waiting)) && s.workers[w].key.Some?
    ensures var t := Exec(s, schedule);
      (At(t, w, Starting) || At(t, w, Waiting)) && t.workers[w].key == s.workers[w].key
    decreases |schedule|
  {
    if schedule != [] {
      var a := schedule[0];
      assert Placed(s, w);
      assert a != WakeSpuriously(w);
      if a.ServiceChannel? {
        assert Placed(s, s.selector.worker);
      }
      StepInv(s, a);
      StaysUnserved(Step(s, a), schedule[1..], w);
    }
  }

  /** The key is drained at the end of a schedule in which nothing wakes w spuriously. */
  ghost predicate Serves(s: State, schedule: seq<Action>, w: nat, key: Key) {
    && IsSchedule(s, schedule) && WakeSpuriously(w) !in schedule
    && exists v: nat :: At(Exec(s, schedule), v, Draining) && Exec(s, schedule).workers[v].key == Some(key)
  }

  lemma FirstStep(s: State, a: Action, rest: seq<Action>)
    requires Enabled(s, a) && IsSchedule(Step(s, a), rest)
    ensures IsSchedule(s, [a] + rest) && Exec(s, [a] + rest) == Exec(Step(s, a), rest)
  {
    assert ([a] + rest)[1..] == rest;
  }

  /** The key is with worker w, which is out of the pool and not draining; read interest is
      off, and no other worker drains it. */
  ghost predicate Withheld(s: State, w: nat, key: Key) {
    && w < |s.workers| && s.workers[w].key == Some(key) && !s.workers[w].phase.Draining?
    && w !in s.idle && key !in s.reading
    && forall v: nat :: At(s, v, Draining) ==> s.workers[v].key != Some(key)
  }

  /** A key that was handed to a worker before its first wait is withheld for good. */
  lemma HeldUnserved(s: State, schedule: seq<Action>, w: nat)
    requires Inv(s) && IsSchedule(s, schedule) && WakeSpuriously(w) !in schedule
    requires (At(s, w, Starting) || At(s, w, Waiting)) && s.workers[w].key.Some?
    ensures Withheld(Exec(s, schedule), w, s.workers[w].key.value)
  {
    StaysUnserved(s, schedule, w);
    ExecInv(s, schedule);
    var t := Exec(s, schedule);
    assert Placed(t, w);
    forall v: nat | At(t, v, Draining)
      ensures t.workers[v].key != s.workers[w].key
    {
      assert Placed(t, v) && Apart(t, w, v);
    }
  }

  /** A key that is handed over can be served, without a spurious wake-up of its worker,
      exactly when the worker has reached its first wait. */
  lemma ServedIff(s: State)
    requires Inv(s) && Enabled(s, ServiceChannel)
    ensures var w, key, t := s.selector.worker, s.selector.key, Step(s, ServiceChannel);
      (exists schedule :: Serves(t, schedule, w, key)) <==> !At(s, w, Starting)
  {
    var w, key, t := s.selector.worker, s.selector.key, Step(s, ServiceChannel);
    assert Placed(s, w);
    StepInv(s, ServiceChannel);
    if At(s, w, Starting) {
      forall schedule | IsSchedule(t, schedule) && WakeSpuriously(w) !in schedule
        ensures !Serves(t, schedule, w, key)
      {
        HeldUnserved(t, schedule, w);
      }
    } else {
      assert At(t, w, Woken) && t.workers[w].key == Some(key);
      FirstStep(t, TestKey(w), []);
      assert [TestKey(w)] + [] == [TestKey(w)];
      assert At(Exec(t, [TestKey(w)]), w, Draining);
      assert Serves(t, [TestKey(w)], w, key);
    }
  }

  lemma {:induction false} StaysWoken(s: State, schedule: seq<Action>, w: nat)
    requires Inv(s) && IsSchedule(s, schedule) && TestKey(w) !in schedule
    requires At(s, w, Woken) && s.workers[w].key.Some?
    ensures var t := Exec(s, schedule); At(t, w, Woken) && t.workers[w].key == s.workers[w].key
    decreases |schedule|
  {
    if schedule != [] {
      var a := schedule[0];
      assert Placed(s, w) && a != TestKey(w);
      if a.ServiceChannel? {
        assert Placed(s, s.selector.worker);
      }
      StepInv(s, a);
      StaysWoken(Step(s, a), schedule[1..], w);
    }
  }

  /** A worker that is handed a key after its first wait keeps it, awake, whatever the others
      do, until it tests the key; then it drains the channel. */
  lemma ServedSurely(s: State, schedule: seq<Action>)
    requires Inv(s) && Enabled(s, ServiceChannel) && !At(s, s.selector.worker, Starting)
    requires IsSchedule(Step(s, ServiceChannel), schedule) && TestKey(s.selector.worker) !in schedule
    ensures var w, t := s.selector.worker, Exec(Step(s, ServiceChannel), schedule);
      && Enabled(t, TestKey(w)) && t.workers[w].key == Some(s.selector.key)
      && At(Step(t, TestKey(w)), w, Draining) && Step(t, TestKey(w)).workers[w].key == Some(s.selector.key)
  {
    assert Placed(s, s.selector.worker);
    StepInv(s, ServiceChannel);
    StaysWoken(Step(s, ServiceChannel), schedule, s.selector.worker);
  }

  /** A connection is accepted, found readable and assigned to the first worker. */
  function FirstSteps(key: Key): seq<Action> {
    [Register(key), Select([key]), GetWorker]
  }

  lemma FirstStepsRun(poolSize: nat, key: Key)
    requires poolSize > 0
    ensures IsSchedule(Init(poolSize), FirstSteps(key))
    ensures var s := Exec(Init(poolSize), FirstSteps(key));
      s.selector == Assigned(0, key, []) && At(s, 0, Starting) && Enabled(s, ServiceChannel)
  {
    var s1 := Step(Init(poolSize), Register(key));
    var s2 := Step(s1, Select([key]));
    FirstStep(s2, GetWorker, []);
    FirstStep(s1, Select([key]), [GetWorker]);
    FirstStep(Init(poolSize), Register(key), [Select([key]), GetWorker]);
    assert [GetWorker] + [] == [GetWorker];
    assert [Select([key])] + [GetWorker] == [Select([key]), GetWorker];
    assert [Register(key)] + [Select([key]), GetWorker] == FirstSteps(key);
  }

  /** So every pool can lose its first channel: a run reaches a hand-over to a worker that
      has not called wait() yet, after which no schedule serves the channel. */
  lemma LostNotification(poolSize: nat, key: Key) returns (schedule: seq<Action>)
    requires poolSize > 0
    ensures IsSchedule(Init(poolSize), schedule)
    ensures var s := Exec(Init(poolSize), schedule);
      && Enabled(s, ServiceChannel) && s.selector.key == key
      && (forall rest :: !Serves(Step(s, ServiceChannel), rest, s.selector.worker, key))
      && forall rest :: IsSchedule(Step(s, ServiceChannel), rest) && WakeSpuriously(s.selector.worker) !in rest ==>
        Withheld(Exec(Step(s, ServiceChannel), rest), s.selector.worker, key)
  {
    schedule := FirstSteps(key);
    FirstStepsRun(poolSize, key);
    InitInv(poolSize);
    ExecInv(Init(poolSize), schedule);
    var s := Exec(Init(poolSize), schedule);
    ServedIff(s);
    StepInv(s, ServiceChannel);
    forall rest | IsSchedule(Step(s, ServiceChannel), rest) && WakeSpuriously(s.selector.worker) !in rest
      ensures Withheld(Exec(Step(s, ServiceChannel), rest), s.selector.worker, key)
    {
      HeldUnserved(Step(s, ServiceChannel), rest, s.selector.worker);
    }
  }
}
