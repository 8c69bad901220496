/** `MochiKit.Iter.tee`: several iterators over one source that is pulled only once,
    with a shared buffer between the slowest and the fastest of them. */
module TeeIterators {
  import opened Basics

  /** The shared `sync` object: the index each iterator returned last, the buffer, and
      the last index pulled from the source and dropped from the buffer. */
  datatype Sync<T> = Sync(pos: seq<int>, deque: seq<T>, max: int, min: int)

  function Init<T>(n: nat): Sync<T> {
    Sync(seq(n, _ => -1), [], -1, -1)
  }

  function Least(s: seq<int>): int
    requires s != []
  {
    if |s| == 1 then s[0]
    else
      var rest := Least(s[..|s| - 1]);
      if s[|s| - 1] < rest then s[|s| - 1] else rest
  }

  ghost function Most(s: seq<int>): int
    requires s != []
  {
    if |s| == 1 then s[0]
    else
      var rest := Most(s[..|s| - 1]);
      if s[|s| - 1] > rest then s[|s| - 1] else rest
  }

  lemma {:induction false} Bounds(s: seq<int>, k: nat)
    requires k < |s|
    ensures Least(s) <= s[k] <= Most(s)
  {
    if k < |s| - 1 {
      Bounds(s[..|s| - 1], k);
    } else if |s| > 1 {
      Bounds(s[..|s| - 1], 0);
    }
  }

  lemma {:induction false} LeastAt(s: seq<int>) returns (k: nat)
    requires s != []
    ensures k < |s| && s[k] == Least(s)
  {
    k := |s| - 1;
    if |s| > 1 && Least(s) != s[k] {
      k := LeastAt(s[..|s| - 1]);
    }
  }

  lemma {:induction false} MostAt(s: seq<int>) returns (k: nat)
    requires s != []
    ensures k < |s| && s[k] == Most(s)
  {
    k := |s| - 1;
    if |s| > 1 && Most(s) != s[k] {
      k := MostAt(s[..|s| - 1]);
    }
  }

  /** One iterator moves on by one: the most advanced position moves only with it. */
  lemma MostAdvances(s: seq<int>, k: nat)
    requires k < |s|
    ensures Most(s[k := s[k] + 1]) == if s[k] == Most(s) then Most(s) + 1 else Most(s)
  {
    var t := s[k := s[k] + 1];
    var m := MostAt(s);
    var l := MostAt(t);
    Bounds(s, k);
    Bounds(s, l);
    Bounds(t, k);
    Bounds(t, m);
  }

  /** The least advanced position stays, or moves on by one with the only iterator that
      stood there. */
  lemma LeastAdvances(s: seq<int>, k: nat)
    requires k < |s|
    ensures Least(s) <= Least(s[k := s[k] + 1]) <= Least(s) + 1
    ensures s[k] != Least(s) ==> Least(s[k := s[k] + 1]) == Least(s)
    ensures |s| > 1 && s[k] == Least(s) == Most(s) ==> Least(s[k := s[k] + 1]) == Least(s)
  {
    var t := s[k := s[k] + 1];
    var m := LeastAt(s);
    var l := LeastAt(t);
    Bounds(s, k);
    Bounds(s, l);
    Bounds(t, k);
    Bounds(t, m);
    if |s| > 1 {
      var other := if k == 0 then 1 else 0;
      Bounds(s, other);
      Bounds(t, other);
    }
  }

  /** The buffer is the source slice after index `min` up to index `max`. */
  ghost predicate Holds<T>(source: seq<T>, deque: seq<T>, min: int, max: int)
    requires -1 <= min <= max < |source|
  {
    |deque| == max - min && forall j :: 0 <= j < |deque| ==> deque[j] == source[min + 1 + j]
  }

  /** What every sequence of calls keeps: `max` is the most advanced position, the buffer
      is the source slice after `min` up to `max`, and `min` is the least advanced
      position, except that a single iterator never moves it. */
  ghost predicate Valid<T>(source: seq<T>, s: Sync<T>) {
    && s.pos != []
    && -1 <= s.min <= s.max < |source|
    && Holds(source, s.deque, s.min, s.max)
    && s.max == Most(s.pos)
    && s.min == if |s.pos| == 1 then -1 else Least(s.pos)
  }

  /** `next` of iterator k over a source with the given elements; None is StopIteration. */
  function Step<T>(source: seq<T>, s: Sync<T>, k: nat): (Sync<T>, Option<T>)
    requires Valid(source, s) && k < |s.pos|
  {
    Bounds(s.pos, k);
    var i := s.pos[k];
    if i == s.max then
      if s.max + 1 == |source| then (s, None)
      else
        var rval := source[s.max + 1];
        (Sync(s.pos[k := i + 1], s.deque + [rval], s.max + 1, s.min), Some(rval))
    else
      var rval := s.deque[i - s.min];
      var pos := s.pos[k := i + 1];
      if i == s.min && Least(pos) != s.min then (Sync(pos, s.deque[1..], s.max, s.min + 1), Some(rval))
      else (s.(pos := pos), Some(rval))
  }

  lemma {:induction false} InitBounds(n: nat)
    requires n > 0
    ensures Least(seq(n, _ => -1)) == -1 == Most(seq(n, _ => -1))
  {
    var l := LeastAt(seq(n, _ => -1));
    var m := MostAt(seq(n, _ => -1));
  }

  /** Each call keeps the invariant, returns the element after the iterator's position
      and moves that iterator on by one; past the end it changes nothing. */
  lemma StepValid<T>(source: seq<T>, s: Sync<T>, k: nat)
    requires Valid(source, s) && k < |s.pos|
    ensures s.min <= s.pos[k] <= s.max
    ensures Valid(source, Step(source, s, k).0)
    ensures var (t, r) := Step(source, s, k);
      if s.pos[k] + 1 < |source| then r == Some(source[s.pos[k] + 1]) && t.pos == s.pos[k := s.pos[k] + 1]
      else r == None && t == s
  {
    Bounds(s.pos, k);
    MostAdvances(s.pos, k);
    LeastAdvances(s.pos, k);
  }

  // ---- runs ----

  function Count(calls: seq<nat>, k: nat): nat {
    if calls == [] then 0
    else Count(calls[..|calls| - 1], k) + if calls[|calls| - 1] == k then 1 else 0
  }

  /** A sequence of `next` calls, each naming one of n iterators. */
  predicate Calls(calls: seq<nat>, n: nat) {
    calls == [] || (calls[|calls| - 1] < n && Calls(calls[..|calls| - 1], n))
  }

  function AtMost(a: nat, b: nat): nat { if a < b then a else b }

  /** The state after any sequence of calls. */
  ghost function Run<T>(source: seq<T>, n: nat, calls: seq<nat>): (s: Sync<T>)
    requires n > 0 && Calls(calls, n)
    ensures Valid(source, s) && |s.pos| == n
  {
    if calls == [] then InitBounds(n); Init(n)
    else
      var before, k := Run(source, n, calls[..|calls| - 1]), calls[|calls| - 1];
      StepValid(source, before, k);
      Step(source, before, k).0
  }

  /** Where an iterator stands: the index of the last element it has returned. */
  function Position<T>(source: seq<T>, calls: seq<nat>, k: nat): int {
    AtMost(Count(calls, k), |source|) - 1
  }

  ghost predicate StandAt<T>(pos: seq<int>, source: seq<T>, calls: seq<nat>) {
    forall k: nat :: k < |pos| ==> pos[k] == Position(source, calls, k)
  }

  lemma OneMoves<T>(pos: seq<int>, source: seq<T>, calls: seq<nat>)
    requires calls != [] && calls[|calls| - 1] < |pos| && StandAt(pos, source, calls[..|calls| - 1])
    ensures var k := calls[|calls| - 1];
      StandAt(if pos[k] + 1 < |source| then pos[k := pos[k] + 1] else pos, source, calls)
  {
    forall j: nat | j < |pos|
      ensures Position(source, calls, j)
           == if j == calls[|calls| - 1] && pos[j] + 1 < |source| then pos[j] + 1 else pos[j]
    {
      assert pos[j] == Position(source, calls[..|calls| - 1], j);
    }
  }

  lemma {:induction false} RunStands<T>(source: seq<T>, n: nat, calls: seq<nat>)
    requires n > 0 && Calls(calls, n)
    ensures StandAt(Run(source, n, calls).pos, source, calls)
    decreases |calls|
  {
    if calls != [] {
      var before := calls[..|calls| - 1];
      RunStands(source, n, before);
      OneMoves(Run(source, n, before).pos, source, calls);
      StepValid(source, Run(source, n, before), calls[|calls| - 1]);
    }
  }

  /** Over every interleaving of `next` calls: the j-th call on an iterator returns the
      j-th source element, whatever the others have done, and StopIteration past the
      end. */
  lemma RunReturns<T>(source: seq<T>, n: nat, calls: seq<nat>, k: nat)
    requires k < n && Calls(calls, n)
    ensures Step(source, Run(source, n, calls), k).1
         == if Count(calls, k) < |source| then Some(source[Count(calls, k)]) else None
  {
    RunStands(source, n, calls);
    StepValid(source, Run(source, n, calls), k);
  }

  function Positions<T>(source: seq<T>, calls: seq<nat>, n: nat): (at: seq<int>)
    ensures |at| == n
  {
    if n == 0 then [] else Positions(source, calls, n - 1) + [Position(source, calls, n - 1)]
  }

  lemma {:induction false} PositionsAre<T>(pos: seq<int>, source: seq<T>, calls: seq<nat>)
    requires StandAt(pos, source, calls)
    ensures pos == Positions(source, calls, |pos|)
  {
    if pos != [] {
      PositionsAre(pos[..|pos| - 1], source, calls);
      assert pos == pos[..|pos| - 1] + [pos[|pos| - 1]];
    }
  }

  lemma RunPositions<T>(source: seq<T>, n: nat, calls: seq<nat>)
    requires 0 < n && Calls(calls, n)
    ensures Run(source, n, calls).pos == Positions(source, calls, n)
  {
    RunStands(source, n, calls);
    PositionsAre(Run(source, n, calls).pos, source, calls);
  }

  /** `max` and `min` are the most and the least advanced positions, and the buffer is
      exactly the source slice between them; a single iterator never trims it. */
  lemma RunBuffer<T>(source: seq<T>, n: nat, calls: seq<nat>)
    requires n > 0 && Calls(calls, n)
    ensures var s, at := Run(source, n, calls), Positions(source, calls, n);
      && s.max == Most(at)
      && s.min == (if n == 1 then -1 else Least(at))
      && -1 <= s.min <= s.max < |source|
      && Holds(source, s.deque, s.min, s.max)
  {
    RunPositions(source, n, calls);
  }

  // ---- the objects ----

  /** `listMin`: the loop of `listMinMax`. */
  method ListMin(lst: seq<int>) returns (cur: int)
    requires lst != []
    ensures cur == Least(lst)
  {
    cur := lst[0];
    for i := 1 to |lst|
      invariant cur == Least(lst[..i])
    {
      assert lst[..i + 1][..i] == lst[..i];
      if lst[i] < cur {
        cur := lst[i];
      }
    }
    assert lst[..|lst|] == lst;
  }

  class Tee<T> {
    const source: seq<T>
    var pulled: nat
    var pos: seq<int>
    var deque: seq<T>
    var max: int
    var min: int

    function Abs(): Sync<T>
      reads this
    {
      Sync(pos, deque, max, min)
    }

    constructor (source: seq<T>, n: nat)
      requires n > 0
      ensures this.source == source && Abs() == Init(n) && pulled == 0
      ensures Valid(source, Abs())
    {
      this.source := source;
      pulled, pos, deque, max, min := 0, seq(n, _ => -1), [], -1, -1;
      new;
      InitBounds(n);
    }

    /** The source iterator. */
    method Pull() returns (rval: Option<T>)
      modifies this`pulled
      requires pulled <= |source|
      ensures rval == if old(pulled) < |source| then Some(source[old(pulled)]) else None
      ensures pulled == if old(pulled) < |source| then old(pulled) + 1 else old(pulled)
    {
      if pulled == |source| {
        return None;
      }
      rval := Some(source[pulled]);
      pulled := pulled + 1;
    }

    method Next(k: nat) returns (rval: Option<T>)
      requires k < |pos| && Valid(source, Abs()) && pulled == max + 1
      modifies this
      ensures (Abs(), rval) == Step(source, old(Abs()), k)
      ensures Valid(source, Abs()) && pulled == max + 1
    {
      StepValid(source, Abs(), k);
      var i := pos[k];
      if i == max {
        rval := Pull();
        if rval.None? {
          return;
        }
        deque := deque + [rval.value];
        max := max + 1;
        pos := pos[k := i + 1];
      } else {
        rval := Some(deque[i - min]);
        pos := pos[k := i + 1];
        if i == min {
          var least := ListMin(pos);
          if least != min {
            min := min + 1;
            deque := deque[1..];
          }
        }
      }
    }
  }
}
