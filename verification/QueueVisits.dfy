/** `TotalFileSizeConcurrentWQueue`: pool visits put the sizes they find into a
    bounded queue and the main thread sums them, looping on a two-part test that
    is not atomic. A state machine over the atomic steps of every thread. */
module QueueVisits {
  import opened FileTree

  /** Where the main thread is inside `getTotalSizeOfFile`. */
  datatype Main =
    | Starting(root: Node)        // startExploreDir: about to raise the counter
    | Executing(root: Node)       // startExploreDir: about to execute the visit
    | TestingPending(sum: nat)    // about to read pendingFileVisits
    | TestingQueue(sum: nat)      // read 0, about to read fileSizes.size()
    | Polling(sum: nat)           // about to take from fileSizes
    | Returned(sum: nat)

  /** Where one pool worker is inside `exploreDir`. */
  datatype Worker =
    | Entered(node: Node)
    | Scanning(rest: seq<Node>, fileSize: nat)
    | Submitting(child: Node, rest: seq<Node>, fileSize: nat)
    | Putting(fileSize: nat)
    | Decrementing
    | Idle

  datatype State = State(
    main: Main,
    workers: seq<Worker>,
    visits: seq<Node>,          // the pool's own queue of submitted visits
    fileSizes: seq<nat>,        // the bounded queue
    pendingFileVisits: int)

  datatype Actor = MainThread | PoolThread(i: nat)

  function Init(root: Node, workers: nat): State {
    State(Starting(root), seq(workers, _ => Idle), [], [], 0)
  }

  /** `poll` waits while the queue is empty and `put` while it is full. */
  predicate Enabled(s: State, a: Actor, capacity: nat) {
    match a
    case MainThread => !s.main.Returned? && (s.main.Polling? ==> s.fileSizes != [])
    case PoolThread(i) =>
      && i < |s.workers|
      && (s.workers[i].Idle? ==> s.visits != [])
      && (s.workers[i].Putting? ==> |s.fileSizes| < capacity)
  }

  function MainStep(s: State): State
    requires !s.main.Returned? && (s.main.Polling? ==> s.fileSizes != [])
  {
    match s.main
    case Starting(root) => s.(main := Executing(root), pendingFileVisits := s.pendingFileVisits + 1)
    case Executing(root) => s.(main := TestingPending(0), visits := s.visits + [root])
    case TestingPending(sum) => s.(main := if s.pendingFileVisits > 0 then Polling(sum) else TestingQueue(sum))
    case TestingQueue(sum) => s.(main := if |s.fileSizes| > 0 then Polling(sum) else Returned(sum))
    case Polling(sum) => s.(main := TestingPending(sum + s.fileSizes[0]), fileSizes := s.fileSizes[1..])
  }

  function Move(s: State, i: nat, w: Worker): State
    requires i < |s.workers|
  {
    s.(workers := s.workers[i := w])
  }

  function WorkerStep(s: State, i: nat): State
    requires i < |s.workers| && (s.workers[i].Idle? ==> s.visits != [])
  {
    match s.workers[i]
    case Entered(node) =>
      if node.File? then Move(s, i, Putting(node.length))
      else if node.Dir? then Move(s, i, Scanning(node.children, 0))
      else Move(s, i, Putting(0))
    case Scanning(rest, fileSize) =>
      if rest == [] then Move(s, i, Putting(fileSize))
      else if rest[0].File? then Move(s, i, Scanning(rest[1..], fileSize + rest[0].length))
      else Move(s, i, Submitting(rest[0], rest[1..], fileSize)).(pendingFileVisits := s.pendingFileVisits + 1)
    case Submitting(child, rest, fileSize) =>
      Move(s, i, Scanning(rest, fileSize)).(visits := s.visits + [child])
    case Putting(fileSize) =>
      Move(s, i, Decrementing).(fileSizes := s.fileSizes + [fileSize])
    case Decrementing =>
      Move(s, i, Idle).(pendingFileVisits := s.pendingFileVisits - 1)
    case Idle =>
      Move(s, i, Entered(s.visits[0])).(visits := s.visits[1..])
  }

  function Step(s: State, a: Actor, capacity: nat): State
    requires Enabled(s, a, capacity)
  {
    match a
    case MainThread => MainStep(s)
    case PoolThread(i) => WorkerStep(s, i)
  }

  predicate IsSchedule(s: State, schedule: seq<Actor>, capacity: nat)
    decreases |schedule|
  {
    schedule == [] ||
    (Enabled(s, schedule[0], capacity) && IsSchedule(Step(s, schedule[0], capacity), schedule[1..], capacity))
  }

  function Exec(s: State, schedule: seq<Actor>, capacity: nat): State
    requires IsSchedule(s, schedule, capacity)
    decreases |schedule|
  {
    if schedule == [] then s else Exec(Step(s, schedule[0], capacity), schedule[1..], capacity)
  }

  // ---- what each part of the state still owes ----

  function Owed(w: Worker): int {
    match w
    case Entered(node) => Size(node)
    case Scanning(rest, fileSize) => fileSize + SizeAll(rest)
    case Submitting(child, rest, fileSize) => fileSize + Size(child) + SizeAll(rest)
    case Putting(fileSize) => fileSize
    case _ => 0
  }

  /** The share of the pending counter a worker stands for. */
  function Tickets(w: Worker): int {
    match w
    case Submitting(_, _, _) => 2
    case Idle => 0
    case _ => 1
  }

  /** The numbers a worker and the visits it leads to still have to put. */
  function Cost(node: Node): nat {
    match node
    case File(_) => 7
    case Dir(children) => 8 + ScanCost(children)
    case Unlistable => 7
  }

  function ScanCost(nodes: seq<Node>): nat {
    if nodes == [] then 0
    else (if nodes[0].File? then 1 else 3 + Cost(nodes[0])) + ScanCost(nodes[1..])
  }

  /** Steps still to take, an upper bound; a number in the queue stands for the
      three main-thread steps that consume it. */
  function Work(w: Worker): int {
    match w
    case Entered(node) => Cost(node)
    case Scanning(rest, _) => 7 + ScanCost(rest)
    case Submitting(child, rest, _) => 9 + Cost(child) + ScanCost(rest)
    case Putting(_) => 6
    case Decrementing => 1
    case Idle => 0
  }

  function VisitSize(node: Node): int { Size(node) }
  function VisitWork(node: Node): int { 1 + Cost(node) }
  function Number(n: nat): int { n }
  function NumberWork(n: nat): int { 4 }

  function MainOwed(m: Main): int {
    match m
    case Starting(root) => Size(root)
    case Executing(root) => Size(root)
    case _ => 0
  }

  function MainSum(m: Main): int {
    if m.Starting? || m.Executing? then 0 else m.sum
  }

  function MainWork(m: Main): int {
    match m
    case Starting(root) => 6 + Cost(root)
    case Executing(root) => 5 + Cost(root)
    case TestingPending(_) => 3
    case TestingQueue(_) => 2
    case Polling(_) => 0
    case Returned(_) => 0
  }

  function Measure(s: State): int {
    MainWork(s.main) + Sum(Work, s.workers) + Sum(VisitWork, s.visits) + Sum(NumberWork, s.fileSizes)
  }

  ghost predicate Conserved(s: State, root: Node) {
    MainSum(s.main) + MainOwed(s.main) + Sum(Number, s.fileSizes) + Sum(Owed, s.workers) + Sum(VisitSize, s.visits)
    == Size(root)
  }

  ghost predicate Counted(s: State) {
    s.pendingFileVisits == |s.visits| + Sum(Tickets, s.workers) + (if s.main.Executing? then 1 else 0)
  }

  ghost predicate Inv(s: State, root: Node, capacity: nat) {
    && Conserved(s, root)
    && Counted(s)
    && |s.fileSizes| <= capacity
    && (s.main.TestingQueue? || s.main.Returned? ==> s.pendingFileVisits == 0)
    && (s.main.Returned? ==> s.fileSizes == [])
  }

  lemma InitInv(root: Node, workers: nat, capacity: nat)
    ensures Inv(Init(root, workers), root, capacity)
    ensures Measure(Init(root, workers)) == 6 + Cost(root)
  {
    SumRepeat(Owed, Idle, workers);
    SumRepeat(Tickets, Idle, workers);
    SumRepeat(Work, Idle, workers);
  }

  /** How every sum over the workers moves when worker i moves. */
  lemma WorkerSums(s: State, i: nat, w: Worker)
    requires i < |s.workers|
    ensures Sum(Owed, s.workers[i := w]) == Sum(Owed, s.workers) - Owed(s.workers[i]) + Owed(w)
    ensures Sum(Tickets, s.workers[i := w]) == Sum(Tickets, s.workers) - Tickets(s.workers[i]) + Tickets(w)
    ensures Sum(Work, s.workers[i := w]) == Sum(Work, s.workers) - Work(s.workers[i]) + Work(w)
  {
    SumUpdate(Owed, s.workers, i, w);
    SumUpdate(Tickets, s.workers, i, w);
    SumUpdate(Work, s.workers, i, w);
  }

  lemma VisitSums(visits: seq<Node>, node: Node)
    ensures Sum(VisitSize, visits + [node]) == Sum(VisitSize, visits) + Size(node)
    ensures Sum(VisitWork, visits + [node]) == Sum(VisitWork, visits) + 1 + Cost(node)
    ensures visits != [] ==> Sum(VisitSize, visits) == Size(visits[0]) + Sum(VisitSize, visits[1..])
    ensures visits != [] ==> Sum(VisitWork, visits) == 1 + Cost(visits[0]) + Sum(VisitWork, visits[1..])
  {
    SumSnoc(VisitSize, visits, node);
    SumSnoc(VisitWork, visits, node);
  }

  lemma NumberSums(fileSizes: seq<nat>, n: nat)
    ensures Sum(Number, fileSizes + [n]) == Sum(Number, fileSizes) + n
    ensures Sum(NumberWork, fileSizes + [n]) == Sum(NumberWork, fileSizes) + 4
    ensures fileSizes != [] ==> Sum(Number, fileSizes) == fileSizes[0] + Sum(Number, fileSizes[1..])
    ensures fileSizes != [] ==> Sum(NumberWork, fileSizes) == 4 + Sum(NumberWork, fileSizes[1..])
  {
    SumSnoc(Number, fileSizes, n);
    SumSnoc(NumberWork, fileSizes, n);
  }

  lemma TicketBound(s: State, i: nat)
    requires Counted(s) && i < |s.workers|
    ensures s.pendingFileVisits >= |s.visits| + Tickets(s.workers[i])
  {
    SumUpdate(Tickets, s.workers, i, Idle);
    SumZero(Tickets, s.workers[i := Idle]);
  }

  lemma MainStepInv(s: State, root: Node, capacity: nat)
    requires Inv(s, root, capacity) && Enabled(s, MainThread, capacity)
    ensures Inv(MainStep(s), root, capacity)
    ensures Measure(MainStep(s)) < Measure(s)
  {
    match s.main
    case Executing(r) => VisitSums(s.visits, r);
    case TestingPending(_) => SumZero(Tickets, s.workers);
    case Polling(_) => NumberSums(s.fileSizes, 0);
    case _ =>
  }

  /** What a worker owes changes only by what it hands over or takes. */
  lemma WorkerOwes(s: State, i: nat)
    requires i < |s.workers| && (s.workers[i].Idle? ==> s.visits != [])
    ensures Owed(WorkerStep(s, i).workers[i]) ==
      match s.workers[i]
      case Submitting(child, _, _) => Owed(s.workers[i]) - Size(child)
      case Putting(fileSize) => 0
      case Idle => Size(s.visits[0])
      case _ => Owed(s.workers[i])
  {
    match s.workers[i]
    case Scanning(rest, _) =>
      if rest != [] {
        assert SizeAll(rest) == Size(rest[0]) + SizeAll(rest[1..]);
        assert rest[0].File? ==> Size(rest[0]) == rest[0].length;
      }
    case _ =>
  }

  lemma WorkerStepConserves(s: State, i: nat, root: Node)
    requires Conserved(s, root) && i < |s.workers| && (s.workers[i].Idle? ==> s.visits != [])
    ensures Conserved(WorkerStep(s, i), root)
  {
    var t := WorkerStep(s, i);
    WorkerOwes(s, i);
    SumUpdate(Owed, s.workers, i, t.workers[i]);
    assert t.main == s.main && t.workers == s.workers[i := t.workers[i]];
    match s.workers[i]
    case Submitting(child, _, _) => SumSnoc(VisitSize, s.visits, child);
    case Putting(fileSize) => SumSnoc(Number, s.fileSizes, fileSize);
    case Idle => assert Sum(VisitSize, s.visits) == Size(s.visits[0]) + Sum(VisitSize, s.visits[1..]);
    case _ =>
  }

  lemma WorkerStepDecreases(s: State, i: nat)
    requires i < |s.workers| && (s.workers[i].Idle? ==> s.visits != [])
    ensures Measure(WorkerStep(s, i)) < Measure(s)
  {
    WorkerSums(s, i, WorkerStep(s, i).workers[i]);
    match s.workers[i]
    case Submitting(child, _, _) => VisitSums(s.visits, child);
    case Putting(fileSize) => NumberSums(s.fileSizes, fileSize);
    case Idle => VisitSums(s.visits, Unlistable);
    case _ =>
  }

  lemma WorkerStepCounts(s: State, i: nat)
    requires Counted(s) && i < |s.workers| && (s.workers[i].Idle? ==> s.visits != [])
    ensures Counted(WorkerStep(s, i))
    ensures s.pendingFileVisits > 0
  {
    TicketBound(s, i);
    WorkerSums(s, i, WorkerStep(s, i).workers[i]);
    match s.workers[i]
    case Entered(node) =>
    case Scanning(rest, _) =>
    case Submitting(_, _, _) =>
    case _ =>
  }

  lemma StepInv(s: State, a: Actor, root: Node, capacity: nat)
    requires Inv(s, root, capacity) && Enabled(s, a, capacity)
    ensures Inv(Step(s, a, capacity), root, capacity)
    ensures Measure(Step(s, a, capacity)) < Measure(s)
  {
    match a
    case MainThread => MainStepInv(s, root, capacity);
    case PoolThread(i) =>
      WorkerStepConserves(s, i, root);
      WorkerStepDecreases(s, i);
      WorkerStepCounts(s, i);
  }

  lemma {:induction false} ExecInv(s: State, schedule: seq<Actor>, root: Node, capacity: nat)
    requires Inv(s, root, capacity) && IsSchedule(s, schedule, capacity)
    ensures Inv(Exec(s, schedule, capacity), root, capacity)
    ensures |schedule| + Measure(Exec(s, schedule, capacity)) <= Measure(s)
    decreases |schedule|
  {
    if schedule != [] {
      StepInv(s, schedule[0], root, capacity);
      ExecInv(Step(s, schedule[0], capacity), schedule[1..], root, capacity);
    }
  }

  lemma MeasureNat(s: State)
    ensures Measure(s) >= 0
  {
    SumZero(Work, s.workers);
    SumZero(VisitWork, s.visits);
    SumZero(NumberWork, s.fileSizes);
  }

  lemma NothingPending(s: State)
    requires Counted(s) && s.pendingFileVisits == 0
    ensures !s.main.Executing? && s.visits == []
    ensures forall w :: w in s.workers ==> w.Idle?
    ensures Sum(Owed, s.workers) == 0
  {
    SumZero(Tickets, s.workers);
    SumZero(Owed, s.workers);
  }

  /** Queue safety over every interleaving: the bound is kept, no size is lost or
      counted twice, every run is finite, and when the main loop exits no visit is
      outstanding, the queue is empty and the sum is the sequential size. */
  lemma QueueSafety(root: Node, workers: nat, capacity: nat, schedule: seq<Actor>)
    requires IsSchedule(Init(root, workers), schedule, capacity)
    ensures |schedule| <= 6 + Cost(root)
    ensures var s := Exec(Init(root, workers), schedule, capacity);
      && |s.fileSizes| <= capacity
      && (MainSum(s.main) + MainOwed(s.main) + Sum(Number, s.fileSizes) + Sum(Owed, s.workers)
          + Sum(VisitSize, s.visits) == Size(root))
      && s.pendingFileVisits == |s.visits| + Sum(Tickets, s.workers) + (if s.main.Executing? then 1 else 0)
      && (s.main.Returned? ==>
            && s.pendingFileVisits == 0 && s.visits == [] && s.fileSizes == []
            && (forall w :: w in s.workers ==> w.Idle?)
            && s.main.sum == Size(root))
  {
    InitInv(root, workers, capacity);
    ExecInv(Init(root, workers), schedule, root, capacity);
    var s := Exec(Init(root, workers), schedule, capacity);
    MeasureNat(s);
    if s.main.Returned? {
      NothingPending(s);
    }
  }

  // ---- liveness fails: the test reads a counter that has yet to be lowered ----

  /** The main thread waits for a number nobody will put; in the program its
      `poll` then times out, and unboxing the null it yields throws. */
  ghost predicate Hung(s: State) {
    s.main.Polling? && s.fileSizes == [] && s.pendingFileVisits == 0
  }

  ghost predicate Stuck(s: State, capacity: nat) {
    forall a :: !Enabled(s, a, capacity)
  }

  lemma {:induction false} ExecWorkerCount(s: State, schedule: seq<Actor>, capacity: nat)
    requires IsSchedule(s, schedule, capacity)
    ensures |Exec(s, schedule, capacity).workers| == |s.workers|
    decreases |schedule|
  {
    if schedule != [] {
      ExecWorkerCount(Step(s, schedule[0], capacity), schedule[1..], capacity);
    }
  }

  /** A run can stop in exactly two ways: returned, or hung after every size was
      already consumed. */
  lemma StuckIffReturnedOrHung(root: Node, workers: nat, capacity: nat, schedule: seq<Actor>)
    requires workers >= 1 && capacity >= 1
    requires IsSchedule(Init(root, workers), schedule, capacity)
    ensures var s := Exec(Init(root, workers), schedule, capacity);
      && (Stuck(s, capacity) <==> s.main.Returned? || Hung(s))
      && (Hung(s) ==> s.main.sum == Size(root))
  {
    InitInv(root, workers, capacity);
    ExecInv(Init(root, workers), schedule, root, capacity);
    ExecWorkerCount(Init(root, workers), schedule, capacity);
    var s := Exec(Init(root, workers), schedule, capacity);
    if s.main.Returned? || Hung(s) {
      NothingPending(s);
    } else if Stuck(s, capacity) {
      assert !Enabled(s, MainThread, capacity);
      assert !Enabled(s, PoolThread(0), capacity);
      forall w | w in s.workers ensures w.Idle? {
        var i :| 0 <= i < |s.workers| && s.workers[i] == w;
        assert !Enabled(s, PoolThread(i), capacity);
      }
      SumZero(Tickets, s.workers);
    }
  }

  /** From any state with a visit pending and the main thread in its loop, some
      schedule hangs: consume whatever is there, read the counter before the last
      visit lowers it, and let that visit end. */
  lemma HangSchedule(s: State, root: Node, capacity: nat) returns (schedule: seq<Actor>)
    requires Inv(s, root, capacity) && |s.workers| >= 1 && capacity >= 1
    requires s.main.Polling? || s.main.TestingPending?
    requires s.pendingFileVisits > 0
    ensures IsSchedule(s, schedule, capacity) && Hung(Exec(s, schedule, capacity))
    decreases Measure(s)
  {
    MeasureNat(s);
    if s.main.TestingPending? || s.fileSizes != [] {
      schedule := HangAfter(s, MainThread, root, capacity);
    } else if i: nat :| i < |s.workers| && !s.workers[i].Idle? && !s.workers[i].Decrementing? {
      TicketBound(s, i);
      WorkerSums(s, i, WorkerStep(s, i).workers[i]);
      schedule := HangAfter(s, PoolThread(i), root, capacity);
    } else if i: nat :| i < |s.workers| && s.workers[i].Idle? && s.visits != [] {
      WorkerSums(s, i, WorkerStep(s, i).workers[i]);
      schedule := HangAfter(s, PoolThread(i), root, capacity);
    } else {
      // only visits about to lower the counter are left, or the pool is full of them
      if forall i: nat :: i < |s.workers| ==> s.workers[i].Idle? {
        SumZero(Tickets, s.workers);
      }
      var i: nat :| i < |s.workers| && s.workers[i].Decrementing?;
      if s.pendingFileVisits == 1 {
        schedule := [PoolThread(i)];
        assert schedule[1..] == [];
      } else {
        schedule := HangAfter(s, PoolThread(i), root, capacity);
      }
    }
  }

  lemma HangAfter(s: State, a: Actor, root: Node, capacity: nat) returns (schedule: seq<Actor>)
    requires Inv(s, root, capacity) && |s.workers| >= 1 && capacity >= 1
    requires Enabled(s, a, capacity)
    requires Step(s, a, capacity).main.Polling? || Step(s, a, capacity).main.TestingPending?
    requires Step(s, a, capacity).pendingFileVisits > 0
    ensures IsSchedule(s, schedule, capacity) && Hung(Exec(s, schedule, capacity))
    decreases Measure(s), 0
  {
    StepInv(s, a, root, capacity);
    MeasureNat(s);
    MeasureNat(Step(s, a, capacity));
    var rest := HangSchedule(Step(s, a, capacity), root, capacity);
    schedule := [a] + rest;
    assert schedule[1..] == rest;
  }

  /** Whatever the tree, the pool and the capacity, some run hangs. */
  lemma EveryTreeCanHang(root: Node, workers: nat, capacity: nat) returns (schedule: seq<Actor>)
    requires workers >= 1 && capacity >= 1
    ensures IsSchedule(Init(root, workers), schedule, capacity)
    ensures Hung(Exec(Init(root, workers), schedule, capacity))
  {
    InitInv(root, workers, capacity);
    var s0 := Init(root, workers);
    StepInv(s0, MainThread, root, capacity);
    var s1 := MainStep(s0);
    StepInv(s1, MainThread, root, capacity);
    var s2 := MainStep(s1);
    var rest := HangSchedule(s2, root, capacity);
    schedule := [MainThread, MainThread] + rest;
    assert schedule[1..] == [MainThread] + rest;
    assert schedule[1..][1..] == rest;
  }

  // ---- and other runs return ----

  /** The actor that moves when the main thread only takes numbers that are there, and only
      reads the counter when nothing else can be done. */
  lemma NextToReturn(s: State, root: Node, capacity: nat) returns (a: Actor)
    requires Inv(s, root, capacity) && |s.workers| >= 1 && capacity >= 1 && !s.main.Returned?
    requires s.main.Polling? ==> s.fileSizes != []
    ensures Enabled(s, a, capacity)
    ensures var t := Step(s, a, capacity); t.main.Polling? ==> t.fileSizes != []
  {
    if !s.main.TestingPending? || s.fileSizes != [] || s.pendingFileVisits == 0 {
      a := MainThread;
    } else if i: nat :| i < |s.workers| && !s.workers[i].Idle? {
      a := PoolThread(i);
    } else {
      SumZero(Tickets, s.workers);
      a := PoolThread(0);
    }
  }

  lemma ReturnSchedule(s: State, root: Node, capacity: nat) returns (schedule: seq<Actor>)
    requires Inv(s, root, capacity) && |s.workers| >= 1 && capacity >= 1
    requires s.main.Polling? ==> s.fileSizes != []
    ensures IsSchedule(s, schedule, capacity) && Exec(s, schedule, capacity).main.Returned?
    decreases Measure(s)
  {
    if s.main.Returned? {
      schedule := [];
    } else {
      var a := NextToReturn(s, root, capacity);
      StepInv(s, a, root, capacity);
      MeasureNat(s);
      MeasureNat(Step(s, a, capacity));
      var rest := ReturnSchedule(Step(s, a, capacity), root, capacity);
      schedule := [a] + rest;
      assert schedule[1..] == rest;
    }
  }

  /** Whatever the tree, the pool and the capacity, some run returns the size. */
  lemma EveryTreeCanReturn(root: Node, workers: nat, capacity: nat) returns (schedule: seq<Actor>)
    requires workers >= 1 && capacity >= 1
    ensures IsSchedule(Init(root, workers), schedule, capacity)
    ensures Exec(Init(root, workers), schedule, capacity).main == Returned(Size(root))
  {
    InitInv(root, workers, capacity);
    schedule := ReturnSchedule(Init(root, workers), root, capacity);
    QueueSafety(root, workers, capacity, schedule);
  }
}
