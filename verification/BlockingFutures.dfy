/** `TotalFileSizeNativeConcurrent`: every node below the root is a pool task that
    submits its children and then blocks on their futures in order. A state machine
    over arbitrary interleavings, with the exact condition for deadlock. */
module BlockingFutures {
  import opened FileTree

  /** A task is named by the child indices that lead to its node from the root. */
  type Path = seq<nat>

  /** The tree as a table from paths to nodes. */
  type Tree = map<Path, Node>

  datatype Status =
    | Unsubmitted
    | Queued                          // its future is in the pool's queue
    | Submitting(next: nat)           // running, about to submit child `next`
    | Waiting(next: nat, total: nat)  // running, about to get the future of child `next`
    | Done(value: nat)

  datatype State = State(status: map<Path, Status>, queue: seq<Path>)

  datatype Action = Take | Run(path: Path)

  function Kids(node: Node): seq<Node> {
    if node.Dir? then node.children else []
  }

  // ---- the protocol ----

  function Init(tree: Tree): State {
    State(map p | p in tree :: if p == [] then Submitting(0) else Unsubmitted, [])
  }

  predicate Running(st: Status) { st.Submitting? || st.Waiting? }

  /** Tasks that hold a pool worker; the root runs on the caller's thread. */
  function Active(s: State): set<Path> {
    set p | p in s.status && p != [] && Running(s.status[p])
  }

  predicate Finished(s: State) { [] in s.status && s.status[[]].Done? }

  predicate ChildDone(s: State, p: Path, i: nat) {
    p + [i] in s.status && s.status[p + [i]].Done?
  }

  /** A task can run unless the future it is about to get is not done. */
  predicate CanRun(s: State, tree: Tree, p: Path) {
    && p in s.status && p in tree && Running(s.status[p])
    && (s.status[p].Waiting? && s.status[p].next < |Kids(tree[p])| ==> ChildDone(s, p, s.status[p].next))
  }

  predicate Enabled(s: State, tree: Tree, workers: nat, a: Action) {
    match a
    case Take => s.queue != [] && |Active(s)| < workers
    case Run(p) => CanRun(s, tree, p)
  }

  predicate Submits(s: State, tree: Tree, p: Path) {
    && p in s.status && p in tree && s.status[p].Submitting?
    && s.status[p].next < |Kids(tree[p])|
  }

  /** The new status of a running task. */
  function Advance(s: State, tree: Tree, p: Path): Status
    requires CanRun(s, tree, p)
  {
    match s.status[p]
    case Submitting(next) =>
      if tree[p].File? then Done(tree[p].length)
      else if next < |Kids(tree[p])| then Submitting(next + 1)
      else Waiting(0, 0)
    case Waiting(next, total) =>
      if next < |Kids(tree[p])| then Waiting(next + 1, total + s.status[p + [next]].value)
      else Done(total)
  }

  function Step(s: State, tree: Tree, workers: nat, a: Action): State
    requires Enabled(s, tree, workers, a)
  {
    match a
    case Take => State(s.status[s.queue[0] := Submitting(0)], s.queue[1..])
    case Run(p) =>
      if Submits(s, tree, p) then
        var child := p + [s.status[p].next];
        State(s.status[p := Advance(s, tree, p)][child := Queued], s.queue + [child])
      else s.(status := s.status[p := Advance(s, tree, p)])
  }

  predicate IsSchedule(s: State, tree: Tree, workers: nat, schedule: seq<Action>)
    decreases |schedule|
  {
    schedule == [] ||
    (Enabled(s, tree, workers, schedule[0])
     && IsSchedule(Step(s, tree, workers, schedule[0]), tree, workers, schedule[1..]))
  }

  function Exec(s: State, tree: Tree, workers: nat, schedule: seq<Action>): State
    requires IsSchedule(s, tree, workers, schedule)
    decreases |schedule|
  {
    if schedule == [] then s
    else Exec(Step(s, tree, workers, schedule[0]), tree, workers, schedule[1..])
  }

  // ---- invariants ----

  /** The table holds exactly the paths of a tree. */
  ghost predicate KidOk(tree: Tree, p: Path, i: nat) {
    p in tree ==>
      && (p + [i] in tree <==> i < |Kids(tree[p])|)
      && (i < |Kids(tree[p])| ==> tree[p + [i]] == Kids(tree[p])[i])
  }

  ghost predicate ParentOk(tree: Tree, p: Path) {
    p in tree && p != [] ==> p[..|p| - 1] in tree
  }

  ghost predicate IsTree(tree: Tree) {
    && [] in tree
    && (forall p, i: nat {:trigger KidOk(tree, p, i)} :: KidOk(tree, p, i))
    && (forall p {:trigger ParentOk(tree, p)} :: ParentOk(tree, p))
  }

  ghost predicate InQueue(s: State, p: Path) {
    p in s.status && s.status[p].Queued? ==> p in s.queue
  }

  ghost predicate QueueOk(s: State) {
    && (forall i :: 0 <= i < |s.queue| ==> s.queue[i] in s.status && s.status[s.queue[i]].Queued?)
    && (forall i, j :: 0 <= i < j < |s.queue| ==> s.queue[i] != s.queue[j])
    && (forall p {:trigger InQueue(s, p)} :: InQueue(s, p))
  }

  /** Whether a task in status `st` has already submitted its child `i`. */
  predicate Submitted(st: Status, i: nat) {
    st.Waiting? || st.Done? || (st.Submitting? && i < st.next)
  }

  ghost predicate ChildOk(s: State, p: Path, i: nat) {
    p in s.status && p + [i] in s.status ==>
      (s.status[p + [i]].Unsubmitted? <==> !Submitted(s.status[p], i))
  }

  ghost predicate ValueOk(s: State, tree: Tree, p: Path) {
    p in s.status && p in tree ==>
      var kids := Kids(tree[p]);
      match s.status[p]
      case Submitting(next) => next <= |kids|
      case Waiting(next, total) =>
        && next <= |kids| && total == SizeAll(kids[..next]) && !tree[p].File?
        && forall i: nat {:trigger ChildDone(s, p, i)} :: i < next ==> ChildDone(s, p, i)
      case Done(value) =>
        && value == Size(tree[p])
        && forall i: nat {:trigger ChildDone(s, p, i)} :: i < |kids| ==> ChildDone(s, p, i)
      case _ => p != []
  }

  ghost predicate Inv(s: State, tree: Tree, workers: nat) {
    && s.status.Keys == tree.Keys
    && QueueOk(s)
    && (forall p, i: nat {:trigger ChildOk(s, p, i)} :: ChildOk(s, p, i))
    && (forall p {:trigger ValueOk(s, tree, p)} :: ValueOk(s, tree, p))
    && |Active(s)| <= workers
  }

  lemma InitInv(tree: Tree, workers: nat)
    requires IsTree(tree)
    ensures Inv(Init(tree), tree, workers)
  {
    assert Active(Init(tree)) == {};
  }

  lemma SnocInjective(p: Path, i: nat, q: Path, j: nat)
    ensures p + [i] == q + [j] ==> p == q && i == j
    ensures p + [i] != p
  {
    if p + [i] == q + [j] {
      assert (p + [i])[..|p|] == p && (q + [j])[..|q|] == q;
      assert (p + [i])[|p|] == i;
    }
    assert |p + [i]| == |p| + 1;
  }

  lemma SubsetCardinality<T>(a: set<T>, b: set<T>)
    requires a <= b
    ensures |a| <= |b|
    ensures a < b ==> |a| < |b|
  {
    assert b == a + (b - a);
    assert a < b ==> b - a != {};
  }

  /** What a submitting step finds: a child nobody has touched. */
  lemma FreshChild(s: State, tree: Tree, workers: nat, p: Path)
    requires IsTree(tree) && Inv(s, tree, workers) && Submits(s, tree, p)
    ensures var child := p + [s.status[p].next];
      child in s.status && s.status[child].Unsubmitted? && child !in s.queue && child != p && child != []
  {
    assert KidOk(tree, p, s.status[p].next);
    SnocInjective(p, s.status[p].next, p, 0);
    assert ChildOk(s, p, s.status[p].next);
  }

  /** Every step changes the status of one task, and a submitting step also that of
      an untouched child. */
  lemma StepStatus(s: State, tree: Tree, workers: nat, a: Action, p: Path)
    requires IsTree(tree) && Inv(s, tree, workers) && Enabled(s, tree, workers, a)
    requires p in s.status
    ensures var s' := Step(s, tree, workers, a);
      && p in s'.status
      && s'.status[p] == (
        if a.Take? && p == s.queue[0] then Submitting(0)
        else if a == Run(p) then Advance(s, tree, p)
        else if a.Run? && Submits(s, tree, a.path) && p == a.path + [s.status[a.path].next] then Queued
        else s.status[p])
    ensures a.Take? ==> s.status[s.queue[0]].Queued?
    ensures a.Run? && Submits(s, tree, a.path) && p == a.path + [s.status[a.path].next] ==> s.status[p].Unsubmitted?
  {
    if a.Run? && Submits(s, tree, a.path) {
      FreshChild(s, tree, workers, a.path);
    }
  }

  lemma StepDomain(s: State, tree: Tree, workers: nat, a: Action)
    requires IsTree(tree) && Inv(s, tree, workers) && Enabled(s, tree, workers, a)
    ensures Step(s, tree, workers, a).status.Keys == tree.Keys
  {
    if a.Run? && Submits(s, tree, a.path) {
      FreshChild(s, tree, workers, a.path);
    }
  }

  lemma StepQueue(s: State, tree: Tree, workers: nat, a: Action)
    requires IsTree(tree) && Inv(s, tree, workers) && Enabled(s, tree, workers, a)
    ensures QueueOk(Step(s, tree, workers, a))
  {
    var s' := Step(s, tree, workers, a);
    StepDomain(s, tree, workers, a);
    if a.Run? && Submits(s, tree, a.path) {
      FreshChild(s, tree, workers, a.path);
    }
    forall p ensures InQueue(s', p) {
      assert InQueue(s, p);
      if p in s'.status {
        StepStatus(s, tree, workers, a, p);
      }
    }
  }

  lemma StepActive(s: State, tree: Tree, workers: nat, a: Action)
    requires IsTree(tree) && Inv(s, tree, workers) && Enabled(s, tree, workers, a)
    ensures |Active(Step(s, tree, workers, a))| <= workers
  {
    var s' := Step(s, tree, workers, a);
    StepDomain(s, tree, workers, a);
    var bound := if a.Take? then Active(s) + {s.queue[0]} else Active(s);
    forall p | p in Active(s') ensures p in bound {
      StepStatus(s, tree, workers, a, p);
    }
    SubsetCardinality(Active(s'), bound);
  }

  lemma StepChild(s: State, tree: Tree, workers: nat, a: Action, p: Path, i: nat)
    requires IsTree(tree) && Inv(s, tree, workers) && Enabled(s, tree, workers, a)
    ensures ChildOk(Step(s, tree, workers, a), p, i)
  {
    var s' := Step(s, tree, workers, a);
    StepDomain(s, tree, workers, a);
    if p in s'.status && p + [i] in s'.status {
      StepStatus(s, tree, workers, a, p);
      StepStatus(s, tree, workers, a, p + [i]);
      SnocInjective(p, i, p, i);
      assert KidOk(tree, p, i);
      assert ChildOk(s, p, i);
      assert ValueOk(s, tree, p);
      if a.Run? && Submits(s, tree, a.path) {
        SnocInjective(p, i, a.path, s.status[a.path].next);
      }
    }
  }

  /** Finished tasks stay finished. */
  lemma DoneStays(s: State, tree: Tree, workers: nat, a: Action, p: Path)
    requires IsTree(tree) && Inv(s, tree, workers) && Enabled(s, tree, workers, a)
    requires p in s.status && s.status[p].Done?
    ensures var s' := Step(s, tree, workers, a); p in s'.status && s'.status[p] == s.status[p]
  {
    StepStatus(s, tree, workers, a, p);
  }

  lemma StepValue(s: State, tree: Tree, workers: nat, a: Action, p: Path)
    requires IsTree(tree) && Inv(s, tree, workers) && Enabled(s, tree, workers, a)
    ensures ValueOk(Step(s, tree, workers, a), tree, p)
  {
    var s' := Step(s, tree, workers, a);
    StepDomain(s, tree, workers, a);
    if p in s'.status {
      StepStatus(s, tree, workers, a, p);
      assert ValueOk(s, tree, p);
      forall i: nat | ChildDone(s, p, i) ensures ChildDone(s', p, i) {
        DoneStays(s, tree, workers, a, p + [i]);
      }
      if a == Run(p) && s.status[p].Waiting? {
        var kids, next := Kids(tree[p]), s.status[p].next;
        if next < |kids| {
          assert KidOk(tree, p, next);
          assert ValueOk(s, tree, p + [next]);
          SizeAllSnoc(kids[..next], kids[next]);
          assert kids[..next + 1] == kids[..next] + [kids[next]];
          assert ChildDone(s, p, next);
        } else {
          assert kids[..next] == kids;
        }
      }
    }
  }

  lemma StepInv(s: State, tree: Tree, workers: nat, a: Action)
    requires IsTree(tree) && Inv(s, tree, workers) && Enabled(s, tree, workers, a)
    ensures Inv(Step(s, tree, workers, a), tree, workers)
  {
    StepDomain(s, tree, workers, a);
    StepQueue(s, tree, workers, a);
    StepActive(s, tree, workers, a);
    forall p, i: nat ensures ChildOk(Step(s, tree, workers, a), p, i) {
      StepChild(s, tree, workers, a, p, i);
    }
    forall p ensures ValueOk(Step(s, tree, workers, a), tree, p) {
      StepValue(s, tree, workers, a, p);
    }
  }

  // ---- every run is finite ----

  /** How many steps a task can still take; it never grows. */
  function Rank(node: Node, st: Status): nat {
    var n := |Kids(node)|;
    match st
    case Unsubmitted => 2 * n + 6
    case Queued => 2 * n + 5
    case Submitting(next) => if next <= n then 2 * n + 4 - next else n + 3
    case Waiting(next, _) => if next <= n then n + 1 - next else 1
    case Done(_) => 0
  }

  function Remaining(s: State, tree: Tree): set<(Path, nat)> {
    set p, k | p in s.status && p in tree && 0 <= k < Rank(tree[p], s.status[p]) :: (p, k)
  }

  lemma StepRank(s: State, tree: Tree, workers: nat, a: Action, p: Path)
    requires IsTree(tree) && Inv(s, tree, workers) && Enabled(s, tree, workers, a)
    requires p in s.status
    ensures p in Step(s, tree, workers, a).status
    ensures var s' := Step(s, tree, workers, a);
      var before, after := Rank(tree[p], s.status[p]), Rank(tree[p], s'.status[p]);
      after <= before && (a == Run(p) || (a.Take? && s.queue[0] == p) ==> after < before)
  {
    assert ValueOk(s, tree, p);
    StepStatus(s, tree, workers, a, p);
  }

  lemma StepShrinks(s: State, tree: Tree, workers: nat, a: Action)
    requires IsTree(tree) && Inv(s, tree, workers) && Enabled(s, tree, workers, a)
    ensures Inv(Step(s, tree, workers, a), tree, workers)
    ensures |Remaining(Step(s, tree, workers, a), tree)| < |Remaining(s, tree)|
  {
    StepInv(s, tree, workers, a);
    var s' := Step(s, tree, workers, a);
    forall x | x in Remaining(s', tree) ensures x in Remaining(s, tree) {
      StepRank(s, tree, workers, a, x.0);
    }
    var q := if a.Take? then s.queue[0] else a.path;
    StepRank(s, tree, workers, a, q);
    var k := Rank(tree[q], s.status[q]) - 1;
    assert (q, k) in Remaining(s, tree) && (q, k) !in Remaining(s', tree);
    SubsetCardinality(Remaining(s', tree), Remaining(s, tree));
  }

  lemma {:induction false} ExecInv(s: State, tree: Tree, workers: nat, schedule: seq<Action>)
    requires IsTree(tree) && Inv(s, tree, workers) && IsSchedule(s, tree, workers, schedule)
    ensures Inv(Exec(s, tree, workers, schedule), tree, workers)
    ensures |schedule| + |Remaining(Exec(s, tree, workers, schedule), tree)| <= |Remaining(s, tree)|
    decreases |schedule|
  {
    if schedule != [] {
      StepShrinks(s, tree, workers, schedule[0]);
      ExecInv(Step(s, tree, workers, schedule[0]), tree, workers, schedule[1..]);
    }
  }

  // ---- deadlock ----

  predicate HasKids(tree: Tree, p: Path) { p in tree && Kids(tree[p]) != [] }

  /** The directories that can block a pool worker: those below the root that have children. */
  function BlockingDirs(tree: Tree): set<Path> {
    set p | p in tree && p != [] && HasKids(tree, p)
  }

  ghost predicate Stuck(s: State, tree: Tree, workers: nat) {
    forall a {:trigger Enabled(s, tree, workers, a)} :: !Enabled(s, tree, workers, a)
  }

  /** With no task queued, a running task that cannot run waits for a smaller one
      in the same position, which cannot go on for ever. */
  lemma NoBlockedChain(s: State, tree: Tree, workers: nat, p: Path)
    requires IsTree(tree) && Inv(s, tree, workers) && Stuck(s, tree, workers)
    requires s.queue == [] && p in s.status && Running(s.status[p])
    ensures false
    decreases tree[p]
  {
    assert !Enabled(s, tree, workers, Run(p));
    assert ValueOk(s, tree, p);
    var next := s.status[p].next;
    assert KidOk(tree, p, next);
    assert ChildOk(s, p, next);
    assert InQueue(s, p + [next]);
    NoBlockedChain(s, tree, workers, p + [next]);
  }

  /** A stuck task is a directory with children. */
  lemma StuckActive(s: State, tree: Tree, workers: nat)
    requires IsTree(tree) && Inv(s, tree, workers) && Stuck(s, tree, workers)
    ensures Active(s) <= BlockingDirs(tree)
  {
    forall p | p in Active(s) ensures p in BlockingDirs(tree) {
      assert !Enabled(s, tree, workers, Run(p));
    }
  }

  /** With fewer blocking directories than workers, an unfinished state can move. */
  lemma Progress(s: State, tree: Tree, workers: nat)
    requires IsTree(tree) && Inv(s, tree, workers)
    requires |BlockingDirs(tree)| < workers && !Finished(s)
    ensures !Stuck(s, tree, workers)
  {
    if Stuck(s, tree, workers) {
      StuckActive(s, tree, workers);
      SubsetCardinality(Active(s), BlockingDirs(tree));
      assert !Enabled(s, tree, workers, Take);
      assert ValueOk(s, tree, []);
      NoBlockedChain(s, tree, workers, []);
    }
  }

  /** A schedule that keeps every directory with children from finishing: such a
      task only submits, and only if one of its own children has children. */
  predicate DirKid(tree: Tree, p: Path, i: nat) {
    p in tree && i < |Kids(tree[p])| && Kids(Kids(tree[p])[i]) != []
  }

  ghost predicate Held(s: State, tree: Tree, p: Path) {
    p in s.status && HasKids(tree, p) ==>
      && !s.status[p].Waiting? && !s.status[p].Done?
      && (s.status[p].Submitting? && s.status[p].next > 0 ==> exists i: nat :: DirKid(tree, p, i))
  }

  ghost predicate AllHeld(s: State, tree: Tree) {
    forall p {:trigger Held(s, tree, p)} :: Held(s, tree, p)
  }

  lemma StepHeld(s: State, tree: Tree, workers: nat, a: Action)
    requires IsTree(tree) && Inv(s, tree, workers) && AllHeld(s, tree) && Enabled(s, tree, workers, a)
    requires a.Run? && HasKids(tree, a.path) ==> Submits(s, tree, a.path) && exists i: nat :: DirKid(tree, a.path, i)
    ensures AllHeld(Step(s, tree, workers, a), tree)
  {
    var s' := Step(s, tree, workers, a);
    StepDomain(s, tree, workers, a);
    forall p ensures Held(s', tree, p) {
      assert Held(s, tree, p);
      if p in s'.status {
        StepStatus(s, tree, workers, a, p);
      }
    }
  }

  /** If no held task can submit a child that has children of its own, every
      directory with children is already running. */
  lemma AllRunning(s: State, tree: Tree, workers: nat, p: Path)
    requires IsTree(tree) && Inv(s, tree, workers) && AllHeld(s, tree) && s.queue == []
    requires forall q, i: nat {:trigger DirKid(tree, q, i)} ::
      q in s.status && DirKid(tree, q, i) && Running(s.status[q]) ==> Submitted(s.status[q], i)
    requires HasKids(tree, p)
    ensures p in s.status && Running(s.status[p])
    decreases |p|
  {
    assert Held(s, tree, p);
    assert ValueOk(s, tree, p);
    if p != [] {
      var q, i := p[..|p| - 1], p[|p| - 1];
      assert p == q + [i];
      assert ParentOk(tree, p);
      assert KidOk(tree, q, i);
      assert DirKid(tree, q, i);
      AllRunning(s, tree, workers, q);
      assert ChildOk(s, q, i);
      assert InQueue(s, p);
    }
  }

  lemma {:induction false} RootHasKids(tree: Tree, p: Path)
    requires IsTree(tree) && p in tree && p != []
    ensures HasKids(tree, [])
    decreases |p|
  {
    assert ParentOk(tree, p);
    var q, i := p[..|p| - 1], p[|p| - 1];
    assert p == q + [i];
    if q == [] {
      assert KidOk(tree, [], i);
    } else {
      RootHasKids(tree, q);
    }
  }

  /** Every worker holds a directory with children, and nothing else runs in the pool. */
  ghost predicate Full(s: State, tree: Tree, workers: nat) {
    |Active(s)| == workers && Active(s) <= BlockingDirs(tree)
  }

  lemma FillPool(s: State, tree: Tree, workers: nat) returns (schedule: seq<Action>)
    requires IsTree(tree) && Inv(s, tree, workers) && AllHeld(s, tree)
    requires 1 <= workers <= |BlockingDirs(tree)|
    ensures IsSchedule(s, tree, workers, schedule)
    ensures var s' := Exec(s, tree, workers, schedule);
      Inv(s', tree, workers) && AllHeld(s', tree) && Full(s', tree, workers)
    decreases |Remaining(s, tree)|
  {
    if p :| p in Active(s) && !HasKids(tree, p) {
      schedule := FillAfter(s, tree, workers, Run(p));
    } else if |Active(s)| == workers {
      schedule := [];
    } else if s.queue != [] {
      schedule := FillAfter(s, tree, workers, Take);
    } else if p, i: nat :| p in s.status && DirKid(tree, p, i) && Running(s.status[p]) && !Submitted(s.status[p], i) {
      assert Held(s, tree, p);
      schedule := FillAfter(s, tree, workers, Run(p));
    } else {
      forall p | p in BlockingDirs(tree) ensures p in Active(s) {
        AllRunning(s, tree, workers, p);
      }
      SubsetCardinality(BlockingDirs(tree), Active(s));
      assert false;
    }
  }

  lemma FillAfter(s: State, tree: Tree, workers: nat, a: Action) returns (schedule: seq<Action>)
    requires IsTree(tree) && Inv(s, tree, workers) && AllHeld(s, tree)
    requires 1 <= workers <= |BlockingDirs(tree)|
    requires Enabled(s, tree, workers, a)
    requires a.Run? && HasKids(tree, a.path) ==> Submits(s, tree, a.path) && exists i: nat :: DirKid(tree, a.path, i)
    ensures IsSchedule(s, tree, workers, schedule)
    ensures var s' := Exec(s, tree, workers, schedule);
      Inv(s', tree, workers) && AllHeld(s', tree) && Full(s', tree, workers)
    decreases |Remaining(s, tree)|, 0
  {
    StepShrinks(s, tree, workers, a);
    StepHeld(s, tree, workers, a);
    var rest := FillPool(Step(s, tree, workers, a), tree, workers);
    schedule := [a] + rest;
    assert schedule[1..] == rest;
  }

  /** A child that will never be done while the pool is full. */
  ghost predicate Outstanding(s: State, tree: Tree, p: Path, i: nat) {
    var child := p + [i];
    && p in tree && i < |Kids(tree[p])| && child in s.status
    && (s.status[child].Unsubmitted? || s.status[child].Queued? || (Running(s.status[child]) && HasKids(tree, child)))
  }

  ghost predicate Jammed(s: State, tree: Tree, p: Path) {
    p in s.status && Running(s.status[p]) && HasKids(tree, p) ==> exists i: nat :: Outstanding(s, tree, p, i)
  }

  ghost predicate Jam(s: State, tree: Tree, workers: nat) {
    && Full(s, tree, workers)
    && [] in s.status && Running(s.status[[]]) && HasKids(tree, [])
    && (forall p {:trigger Jammed(s, tree, p)} :: Jammed(s, tree, p))
  }

  lemma FullIsJam(s: State, tree: Tree, workers: nat)
    requires IsTree(tree) && Inv(s, tree, workers) && AllHeld(s, tree) && Full(s, tree, workers)
    requires HasKids(tree, [])
    ensures Jam(s, tree, workers)
  {
    forall p ensures Jammed(s, tree, p) {
      if p in s.status && Running(s.status[p]) && HasKids(tree, p) {
        assert Held(s, tree, p);
        var i: nat := 0;
        if s.status[p].next > 0 {
          i :| DirKid(tree, p, i);
        }
        assert KidOk(tree, p, i);
        assert ChildOk(s, p, i);
        assert Held(s, tree, p + [i]);
        assert Outstanding(s, tree, p, i);
      }
    }
    assert ValueOk(s, tree, []);
    assert Held(s, tree, []);
  }

  /** A running directory with an outstanding child does not finish. */
  lemma JammedRuns(s: State, tree: Tree, workers: nat, p: Path)
    requires IsTree(tree) && Inv(s, tree, workers) && Jam(s, tree, workers)
    requires p in s.status && CanRun(s, tree, p)
    ensures Running(Advance(s, tree, p)) && HasKids(tree, p)
  {
    assert p in Active(s) || p == [];
    assert Jammed(s, tree, p);
    assert ValueOk(s, tree, p);
    var i: nat :| Outstanding(s, tree, p, i);
    assert !ChildDone(s, p, i);
  }

  lemma StepJam(s: State, tree: Tree, workers: nat, a: Action)
    requires IsTree(tree) && Inv(s, tree, workers) && Jam(s, tree, workers) && Enabled(s, tree, workers, a)
    ensures Jam(Step(s, tree, workers, a), tree, workers)
  {
    var s' := Step(s, tree, workers, a);
    StepDomain(s, tree, workers, a);
    JammedRuns(s, tree, workers, a.path);
    forall p | p in s.status ensures Running(s'.status[p]) == Running(s.status[p]) {
      StepStatus(s, tree, workers, a, p);
    }
    assert Active(s') == Active(s);
    forall p ensures Jammed(s', tree, p) {
      assert Jammed(s, tree, p);
      if p in s'.status && Running(s'.status[p]) && HasKids(tree, p) {
        var i: nat :| Outstanding(s, tree, p, i);
        StepStatus(s, tree, workers, a, p + [i]);
        assert Outstanding(s', tree, p, i);
      }
    }
  }

  /** A jam runs dry: every further step keeps it, so it ends stuck and unfinished. */
  lemma RunDry(s: State, tree: Tree, workers: nat) returns (schedule: seq<Action>)
    requires IsTree(tree) && Inv(s, tree, workers) && Jam(s, tree, workers)
    ensures IsSchedule(s, tree, workers, schedule)
    ensures var s' := Exec(s, tree, workers, schedule);
      Stuck(s', tree, workers) && !Finished(s') && Full(s', tree, workers)
    decreases |Remaining(s, tree)|
  {
    if a :| Enabled(s, tree, workers, a) {
      StepShrinks(s, tree, workers, a);
      StepJam(s, tree, workers, a);
      var rest := RunDry(Step(s, tree, workers, a), tree, workers);
      schedule := [a] + rest;
      assert schedule[1..] == rest;
    } else {
      schedule := [];
    }
  }

  lemma {:induction false} ExecAppend(s: State, tree: Tree, workers: nat, first: seq<Action>, second: seq<Action>)
    requires IsSchedule(s, tree, workers, first)
    requires IsSchedule(Exec(s, tree, workers, first), tree, workers, second)
    ensures IsSchedule(s, tree, workers, first + second)
    ensures Exec(s, tree, workers, first + second) == Exec(Exec(s, tree, workers, first), tree, workers, second)
    decreases |first|
  {
    if first == [] {
      assert first + second == second;
    } else {
      ExecAppend(Step(s, tree, workers, first[0]), tree, workers, first[1..], second);
      assert (first + second)[1..] == first[1..] + second;
    }
  }

  /** With at least as many blocking directories as workers, some run deadlocks. */
  lemma DeadlockSchedule(tree: Tree, workers: nat) returns (schedule: seq<Action>)
    requires IsTree(tree) && 1 <= workers <= |BlockingDirs(tree)|
    ensures IsSchedule(Init(tree), tree, workers, schedule)
    ensures var s := Exec(Init(tree), tree, workers, schedule);
      Stuck(s, tree, workers) && !Finished(s) && Full(s, tree, workers)
  {
    InitInv(tree, workers);
    assert BlockingDirs(tree) != {};
    var dir :| dir in BlockingDirs(tree);
    RootHasKids(tree, dir);
    var first := FillPool(Init(tree), tree, workers);
    var s := Exec(Init(tree), tree, workers, first);
    FullIsJam(s, tree, workers);
    var second := RunDry(s, tree, workers);
    ExecAppend(Init(tree), tree, workers, first, second);
    schedule := first + second;
  }

  // ---- the table of a file tree ----

  predicate IsPath(node: Node, p: Path)
    decreases |p|
  {
    p == [] || (p[0] < |Kids(node)| && IsPath(Kids(node)[p[0]], p[1..]))
  }

  function At(node: Node, p: Path): Node
    requires IsPath(node, p)
    decreases |p|
  {
    if p == [] then node else At(Kids(node)[p[0]], p[1..])
  }

  function Paths(node: Node): (paths: set<Path>)
    ensures forall p :: p in paths ==> IsPath(node, p)
  {
    {[]} + match node
           case Dir(children) => set i, q | 0 <= i < |children| && q in Paths(children[i]) :: [i] + q
           case _ => {}
  }

  function TreeOf(root: Node): Tree {
    map p | p in Paths(root) :: At(root, p)
  }

  lemma {:induction false} PathsComplete(node: Node, p: Path)
    requires IsPath(node, p)
    ensures p in Paths(node)
    decreases |p|
  {
    if p != [] {
      PathsComplete(node.children[p[0]], p[1..]);
      assert p == [p[0]] + p[1..];
    }
  }

  lemma {:induction false} ChildPath(node: Node, p: Path, i: nat)
    requires IsPath(node, p)
    ensures IsPath(node, p + [i]) <==> i < |Kids(At(node, p))|
    ensures i < |Kids(At(node, p))| ==> At(node, p + [i]) == Kids(At(node, p))[i]
    decreases |p|
  {
    if p == [] {
      assert (p + [i])[1..] == [];
    } else {
      assert (p + [i])[1..] == p[1..] + [i];
      ChildPath(Kids(node)[p[0]], p[1..], i);
    }
  }

  lemma {:induction false} ParentPath(node: Node, p: Path)
    requires IsPath(node, p) && p != []
    ensures IsPath(node, p[..|p| - 1])
    decreases |p|
  {
    if |p| > 1 {
      ParentPath(Kids(node)[p[0]], p[1..]);
      assert p[..|p| - 1][1..] == p[1..][..|p| - 2];
    }
  }

  lemma TreeOfIsTree(root: Node)
    ensures IsTree(TreeOf(root))
    ensures TreeOf(root)[[]] == root
  {
    var tree := TreeOf(root);
    forall p, i: nat ensures KidOk(tree, p, i) {
      if p in tree {
        ChildPath(root, p, i);
        if IsPath(root, p + [i]) {
          PathsComplete(root, p + [i]);
        }
      }
    }
    forall p ensures ParentOk(tree, p) {
      if p in tree && p != [] {
        ParentPath(root, p);
        PathsComplete(root, p[..|p| - 1]);
      }
    }
  }

  // ---- main results ----

  /** Every run is finite, never uses more than the pool, and a finished run
      returns the sequential size. */
  lemma EveryRun(root: Node, workers: nat, schedule: seq<Action>)
    requires IsSchedule(Init(TreeOf(root)), TreeOf(root), workers, schedule)
    ensures |schedule| <= |Remaining(Init(TreeOf(root)), TreeOf(root))|
    ensures var s := Exec(Init(TreeOf(root)), TreeOf(root), workers, schedule);
      |Active(s)| <= workers && (Finished(s) ==> s.status[[]].value == Size(root))
  {
    var tree := TreeOf(root);
    TreeOfIsTree(root);
    InitInv(tree, workers);
    ExecInv(Init(tree), tree, workers, schedule);
    var s := Exec(Init(tree), tree, workers, schedule);
    assert ValueOk(s, tree, []);
  }

  ghost predicate Deadlocks(root: Node, workers: nat, schedule: seq<Action>) {
    && IsSchedule(Init(TreeOf(root)), TreeOf(root), workers, schedule)
    && var s := Exec(Init(TreeOf(root)), TreeOf(root), workers, schedule);
       Stuck(s, TreeOf(root), workers) && !Finished(s)
  }

  /** A pool of N workers can deadlock on a tree exactly when at least N
      directories below the root have children. */
  lemma DeadlockIff(root: Node, workers: nat)
    requires workers >= 1
    ensures (exists schedule :: Deadlocks(root, workers, schedule)) <==> workers <= |BlockingDirs(TreeOf(root))|
  {
    var tree := TreeOf(root);
    TreeOfIsTree(root);
    if workers <= |BlockingDirs(tree)| {
      var schedule := DeadlockSchedule(tree, workers);
      assert Deadlocks(root, workers, schedule);
    } else {
      forall schedule | IsSchedule(Init(tree), tree, workers, schedule)
        ensures !Deadlocks(root, workers, schedule)
      {
        InitInv(tree, workers);
        ExecInv(Init(tree), tree, workers, schedule);
        var s := Exec(Init(tree), tree, workers, schedule);
        if !Finished(s) {
          Progress(s, tree, workers);
        }
      }
    }
  }

  lemma {:induction false} PrefixesBlock(tree: Tree, p: Path, n: nat) returns (dirs: set<Path>)
    requires IsTree(tree) && p in tree && n < |p|
    ensures dirs <= BlockingDirs(tree) && |dirs| == n
    ensures forall d :: d in dirs ==> |d| < |p|
    decreases |p|
  {
    dirs := {};
    if n > 0 {
      var q, i := p[..|p| - 1], p[|p| - 1];
      assert p == q + [i];
      assert ParentOk(tree, p);
      assert KidOk(tree, q, i);
      dirs := PrefixesBlock(tree, q, n - 1);
      dirs := dirs + {q};
    }
  }

  /** N nested non-empty directories below the root are enough to deadlock N workers. */
  lemma DeepTreesDeadlock(root: Node, p: Path, workers: nat)
    requires IsPath(root, p) && 1 <= workers < |p|
    ensures exists schedule :: Deadlocks(root, workers, schedule)
  {
    TreeOfIsTree(root);
    PathsComplete(root, p);
    var dirs := PrefixesBlock(TreeOf(root), p, workers);
    SubsetCardinality(dirs, BlockingDirs(TreeOf(root)));
    DeadlockIff(root, workers);
  }
}
