/** `TotalFileSizeConcurrentWLatch`: visits run on the main thread and on a pool,
    add to a shared total, and the visit that brings the pending counter to zero
    opens the latch. A state machine over the atomic steps of every thread. */
module LatchVisits {
  import opened FileTree

  /** Where one thread is inside `updateTotalSizeOfFilesInDir`. */
  datatype Thread =
    | Entered(node: Node)                                    // about to test isFile()
    | Scanning(rest: seq<Node>, fileSize: nat)               // in the loop over the children
    | Submitting(child: Node, rest: seq<Node>, fileSize: nat) // counter raised, child not yet executed
    | Adding(fileSize: nat)                                  // about to call totalSize.addAndGet
    | Decrementing                                           // about to call decrementAndGet
    | Opening                                                // decrementAndGet gave 0, about to countDown
    | Idle

  /** Thread 0 is the main thread; the others are the pool's workers. */
  datatype State = State(
    threads: seq<Thread>,
    queue: seq<Node>,
    pendingFileVisits: int,
    totalSize: nat,
    countDowns: nat)

  function Init(root: Node, workers: nat): State {
    State([Entered(root)] + seq(workers, _ => Idle), [], 1, 0, 0)
  }

  /** A thread can always move, except that an idle worker needs a queued visit
      and the main thread takes none. */
  predicate Enabled(s: State, i: nat) {
    i < |s.threads| && (s.threads[i].Idle? ==> i > 0 && s.queue != [])
  }

  function Step(s: State, i: nat): State
    requires Enabled(s, i)
  {
    match s.threads[i]
    case Entered(node) =>
      if node.File? then Move(s, i, Adding(node.length))
      else if node.Dir? then Move(s, i, Scanning(node.children, 0))
      else Move(s, i, Adding(0))
    case Scanning(rest, fileSize) =>
      if rest == [] then Move(s, i, Adding(fileSize))
      else if rest[0].File? then Move(s, i, Scanning(rest[1..], fileSize + rest[0].length))
      else Move(s, i, Submitting(rest[0], rest[1..], fileSize)).(pendingFileVisits := s.pendingFileVisits + 1)
    case Submitting(child, rest, fileSize) =>
      Move(s, i, Scanning(rest, fileSize)).(queue := s.queue + [child])
    case Adding(fileSize) =>
      Move(s, i, Decrementing).(totalSize := s.totalSize + fileSize)
    case Decrementing =>
      var pending := s.pendingFileVisits - 1;
      Move(s, i, if pending == 0 then Opening else Idle).(pendingFileVisits := pending)
    case Opening =>
      Move(s, i, Idle).(countDowns := s.countDowns + 1)
    case Idle =>
      Move(s, i, Entered(s.queue[0])).(queue := s.queue[1..])
  }

  function Move(s: State, i: nat, t: Thread): State
    requires i < |s.threads|
  {
    s.(threads := s.threads[i := t])
  }

  /** A run is the sequence of threads that move. */
  predicate IsSchedule(s: State, schedule: seq<nat>)
    decreases |schedule|
  {
    schedule == [] || (Enabled(s, schedule[0]) && IsSchedule(Step(s, schedule[0]), schedule[1..]))
  }

  function Exec(s: State, schedule: seq<nat>): State
    requires IsSchedule(s, schedule)
    decreases |schedule|
  {
    if schedule == [] then s else Exec(Step(s, schedule[0]), schedule[1..])
  }

  // ---- what each part of the state still owes ----

  /** The size a thread has still to add to the total. */
  function Owed(t: Thread): int {
    match t
    case Entered(node) => Size(node)
    case Scanning(rest, fileSize) => fileSize + SizeAll(rest)
    case Submitting(child, rest, fileSize) => fileSize + Size(child) + SizeAll(rest)
    case Adding(fileSize) => fileSize
    case _ => 0
  }

  /** The share of the pending counter a thread stands for. */
  function Tickets(t: Thread): int {
    match t
    case Submitting(_, _, _) => 2
    case Opening => 0
    case Idle => 0
    case _ => 1
  }

  function Opens(t: Thread): int { if t.Opening? then 1 else 0 }

  /** Steps still to take, an upper bound. */
  function Cost(node: Node): nat {
    match node
    case File(_) => 4
    case Dir(children) => 5 + ScanCost(children)
    case Unlistable => 4
  }

  function ScanCost(nodes: seq<Node>): nat {
    if nodes == [] then 0
    else (if nodes[0].File? then 1 else 3 + Cost(nodes[0])) + ScanCost(nodes[1..])
  }

  function Work(t: Thread): int {
    match t
    case Entered(node) => Cost(node)
    case Scanning(rest, _) => 4 + ScanCost(rest)
    case Submitting(child, rest, _) => 6 + Cost(child) + ScanCost(rest)
    case Adding(_) => 3
    case Decrementing => 2
    case Opening => 1
    case Idle => 0
  }

  function QueuedSize(node: Node): int { Size(node) }

  function QueuedWork(node: Node): int { 1 + Cost(node) }

  function Measure(s: State): int {
    Sum(Work, s.threads) + Sum(QueuedWork, s.queue)
  }

  ghost predicate Conserved(s: State, root: Node) {
    s.totalSize + Sum(Owed, s.threads) + Sum(QueuedSize, s.queue) == Size(root)
  }

  ghost predicate Counted(s: State) {
    s.pendingFileVisits == |s.queue| + Sum(Tickets, s.threads)
  }

  ghost predicate LatchOnce(s: State) {
    s.countDowns + Sum(Opens, s.threads) == if s.pendingFileVisits == 0 then 1 else 0
  }

  ghost predicate Inv(s: State, root: Node) {
    Conserved(s, root) && Counted(s) && LatchOnce(s)
  }

  lemma InitInv(root: Node, workers: nat)
    ensures Inv(Init(root, workers), root)
    ensures Measure(Init(root, workers)) == Cost(root)
  {
    var s := Init(root, workers);
    assert s.threads[1..] == seq(workers, _ => Idle);
    SumRepeat(Owed, Idle, workers);
    SumRepeat(Tickets, Idle, workers);
    SumRepeat(Opens, Idle, workers);
    SumRepeat(Work, Idle, workers);
  }

  /** How every sum over the threads moves when thread i moves. */
  lemma ThreadSums(s: State, i: nat)
    requires Enabled(s, i)
    ensures var t, t' := s.threads[i], Step(s, i).threads[i];
      && Sum(Owed, Step(s, i).threads) == Sum(Owed, s.threads) - Owed(t) + Owed(t')
      && Sum(Tickets, Step(s, i).threads) == Sum(Tickets, s.threads) - Tickets(t) + Tickets(t')
      && Sum(Opens, Step(s, i).threads) == Sum(Opens, s.threads) - Opens(t) + Opens(t')
      && Sum(Work, Step(s, i).threads) == Sum(Work, s.threads) - Work(t) + Work(t')
  {
    var t' := Step(s, i).threads[i];
    SumUpdate(Owed, s.threads, i, t');
    SumUpdate(Tickets, s.threads, i, t');
    SumUpdate(Opens, s.threads, i, t');
    SumUpdate(Work, s.threads, i, t');
  }

  /** A pending thread keeps the counter positive. */
  lemma TicketBound(s: State, i: nat)
    requires Counted(s) && i < |s.threads|
    ensures s.pendingFileVisits >= |s.queue| + Tickets(s.threads[i])
  {
    SumUpdate(Tickets, s.threads, i, Idle);
    SumZero(Tickets, s.threads[i := Idle]);
  }

  /** How the queued sizes and the queued work move in one step. */
  lemma QueueSums(s: State, i: nat)
    requires Enabled(s, i)
    ensures var put := if s.threads[i].Submitting? then [s.threads[i].child] else [];
      var taken := if s.threads[i].Idle? then [s.queue[0]] else [];
      && Sum(QueuedSize, Step(s, i).queue) == Sum(QueuedSize, s.queue) + Sum(QueuedSize, put) - Sum(QueuedSize, taken)
      && Sum(QueuedWork, Step(s, i).queue) == Sum(QueuedWork, s.queue) + Sum(QueuedWork, put) - Sum(QueuedWork, taken)
  {
    if s.threads[i].Submitting? {
      SumAppend(QueuedSize, s.queue, [s.threads[i].child]);
      SumAppend(QueuedWork, s.queue, [s.threads[i].child]);
    } else if s.threads[i].Idle? {
      SumAppend(QueuedSize, [s.queue[0]], s.queue[1..]);
      SumAppend(QueuedWork, [s.queue[0]], s.queue[1..]);
      assert [s.queue[0]] + s.queue[1..] == s.queue;
    }
  }

  lemma StepConserves(s: State, i: nat, root: Node)
    requires Conserved(s, root) && Enabled(s, i)
    ensures Conserved(Step(s, i), root)
  {
    ThreadSums(s, i);
    QueueSums(s, i);
    match s.threads[i]
    case Scanning(rest, _) =>
      if rest != [] {
        assert SizeAll(rest) == Size(rest[0]) + SizeAll(rest[1..]);
        assert rest[0].File? ==> Size(rest[0]) == rest[0].length;
      }
    case _ =>
  }

  lemma StepDecreases(s: State, i: nat)
    requires Enabled(s, i)
    ensures Measure(Step(s, i)) < Measure(s)
  {
    ThreadSums(s, i);
    QueueSums(s, i);
  }

  lemma StepCounts(s: State, i: nat)
    requires Counted(s) && LatchOnce(s) && Enabled(s, i)
    ensures Counted(Step(s, i)) && LatchOnce(Step(s, i))
  {
    ThreadSums(s, i);
    TicketBound(s, i);
  }

  lemma StepInv(s: State, i: nat, root: Node)
    requires Inv(s, root) && Enabled(s, i)
    ensures Inv(Step(s, i), root)
  {
    StepConserves(s, i, root);
    StepCounts(s, i);
  }

  lemma {:induction false} ExecInv(s: State, schedule: seq<nat>, root: Node)
    requires Inv(s, root) && IsSchedule(s, schedule)
    ensures Inv(Exec(s, schedule), root)
    ensures |schedule| + Measure(Exec(s, schedule)) <= Measure(s)
    decreases |schedule|
  {
    if schedule != [] {
      StepInv(s, schedule[0], root);
      StepDecreases(s, schedule[0]);
      ExecInv(Step(s, schedule[0]), schedule[1..], root);
    }
  }

  lemma MeasureNat(s: State)
    ensures Measure(s) >= 0
  {
    SumZero(Work, s.threads);
    SumZero(QueuedWork, s.queue);
  }

  /** Latch safety over every interleaving: the counter is the number of visits
      not yet decremented, nothing is lost or added twice, the latch opens at most
      once, and when it is open the total is the sequential size. */
  lemma LatchSafety(root: Node, workers: nat, schedule: seq<nat>)
    requires IsSchedule(Init(root, workers), schedule)
    ensures var s := Exec(Init(root, workers), schedule);
      && s.pendingFileVisits == |s.queue| + Sum(Tickets, s.threads)
      && s.totalSize + Sum(Owed, s.threads) + Sum(QueuedSize, s.queue) == Size(root)
      && s.countDowns <= 1
      && (s.countDowns == 1 ==> s.pendingFileVisits == 0 && s.totalSize == Size(root))
  {
    InitInv(root, workers);
    ExecInv(Init(root, workers), schedule, root);
    var s := Exec(Init(root, workers), schedule);
    SumZero(Opens, s.threads);
    if s.pendingFileVisits == 0 {
      AllDone(s);
    }
  }

  /** With no visit pending, no thread owes anything. */
  lemma AllDone(s: State)
    requires Counted(s) && s.pendingFileVisits == 0
    ensures s.queue == [] && Sum(Owed, s.threads) == 0
    ensures forall t :: t in s.threads ==> t.Opening? || t.Idle?
  {
    SumZero(Tickets, s.threads);
    SumZero(Owed, s.threads);
  }

  /** Every run is finite, and a run that cannot be extended has opened the latch
      once over the exact total: with at least one worker, waiting on the latch
      always ends with the sequential size. */
  lemma LatchLiveness(root: Node, workers: nat, schedule: seq<nat>)
    requires workers >= 1
    requires IsSchedule(Init(root, workers), schedule)
    ensures |schedule| <= Cost(root)
    ensures var s := Exec(Init(root, workers), schedule);
      (forall i: nat :: !Enabled(s, i)) ==> s.countDowns == 1 && s.totalSize == Size(root)
  {
    InitInv(root, workers);
    ExecInv(Init(root, workers), schedule, root);
    var s := Exec(Init(root, workers), schedule);
    MeasureNat(s);
    ThreadCount(Init(root, workers), schedule);
    if forall i: nat :: !Enabled(s, i) {
      assert !Enabled(s, 1);
      assert forall t :: t in s.threads ==> t.Idle? by {
        forall i: nat | i < |s.threads| ensures s.threads[i].Idle? { assert !Enabled(s, i); }
      }
      SumZero(Tickets, s.threads);
      SumZero(Opens, s.threads);
      SumZero(Owed, s.threads);
    }
  }

  /** The main thread makes one visit, its own, and then takes none from the queue. */
  lemma {:induction false} MainWaits(s: State, schedule: seq<nat>)
    requires IsSchedule(s, schedule) && s.threads != [] && s.threads[0].Idle?
    ensures Exec(s, schedule).threads != [] && Exec(s, schedule).threads[0].Idle?
    decreases |schedule|
  {
    if schedule != [] {
      MainWaits(Step(s, schedule[0]), schedule[1..]);
    }
  }

  lemma {:induction false} ThreadCount(s: State, schedule: seq<nat>)
    requires IsSchedule(s, schedule)
    ensures |Exec(s, schedule).threads| == |s.threads|
    decreases |schedule|
  {
    if schedule != [] {
      ThreadCount(Step(s, schedule[0]), schedule[1..]);
    }
  }
}
