/** The range arithmetic of `caseFoldCharset`: the ranges of a character set are joined
    by their case variants, sorted, and merged. Parsing and printing are not modelled. */
module CaseFold {

  datatype Range = Range(lo: nat, hi: nat)

  predicate Has(r: Range, c: nat) { r.lo <= c <= r.hi }

  /** The characters a list of ranges denotes. */
  predicate In(ranges: seq<Range>, c: nat) {
    ranges != [] && (Has(ranges[|ranges| - 1], c) || In(ranges[..|ranges| - 1], c))
  }

  /** Range ends in order, which the syntax of character sets demands. */
  predicate Ordered(ranges: seq<Range>) {
    forall i :: 0 <= i < |ranges| ==> ranges[i].lo <= ranges[i].hi
  }

  /** The other case of an ASCII letter. */
  function Swap(c: nat): nat {
    if 65 <= c <= 90 then c + 32 else if 97 <= c <= 122 then c - 32 else c
  }

  // ---- case variants ----

  function Max(a: nat, b: nat): nat { if a < b then b else a }

  function Min(a: nat, b: nat): nat { if b < a then b else a }

  /** `x | 32` */
  function SetBit5(x: nat): nat { if x / 32 % 2 == 0 then x + 32 else x }

  /** `x & ~32` */
  function ClearBit5(x: nat): nat { if x / 32 % 2 == 1 then x - 32 else x }

  function LowerVariant(r: Range): seq<Range> {
    if r.hi < 65 || r.lo > 90 then [] else [Range(SetBit5(Max(65, r.lo)), SetBit5(Min(r.hi, 90)))]
  }

  function UpperVariant(r: Range): seq<Range> {
    if r.hi < 97 || r.lo > 122 then [] else [Range(ClearBit5(Max(97, r.lo)), ClearBit5(Min(r.hi, 122)))]
  }

  /** What one parsed range contributes. */
  function Variants(r: Range): seq<Range> {
    if r.hi < 65 || r.lo > 122 then [r] else [r] + LowerVariant(r) + UpperVariant(r)
  }

  function Expand(parsed: seq<Range>): seq<Range> {
    if parsed == [] then [] else Expand(parsed[..|parsed| - 1]) + Variants(parsed[|parsed| - 1])
  }

  lemma {:induction false} InAppend(a: seq<Range>, b: seq<Range>, c: nat)
    ensures In(a + b, c) <==> In(a, c) || In(b, c)
  {
    if b == [] {
      assert a + b == a;
    } else {
      assert (a + b)[..|a + b| - 1] == a + b[..|b| - 1];
      InAppend(a, b[..|b| - 1], c);
    }
  }

  lemma LowerDenotes(r: Range, c: nat)
    requires r.lo <= r.hi
    ensures Ordered(LowerVariant(r))
    ensures In(LowerVariant(r), c) <==> 97 <= c <= 122 && Has(r, c - 32)
  {
  }

  lemma UpperDenotes(r: Range, c: nat)
    requires r.lo <= r.hi
    ensures Ordered(UpperVariant(r))
    ensures In(UpperVariant(r), c) <==> 65 <= c <= 90 && Has(r, c + 32)
  {
  }

  lemma VariantsDenote(r: Range, c: nat)
    requires r.lo <= r.hi
    ensures Ordered(Variants(r))
    ensures In(Variants(r), c) <==> Has(r, c) || Has(r, Swap(c))
  {
    LowerDenotes(r, c);
    UpperDenotes(r, c);
    InAppend([r], LowerVariant(r), c);
    InAppend([r] + LowerVariant(r), UpperVariant(r), c);
  }

  lemma {:induction false} ExpandDenotes(parsed: seq<Range>, c: nat)
    requires Ordered(parsed)
    ensures Ordered(Expand(parsed))
    ensures In(Expand(parsed), c) <==> In(parsed, c) || In(parsed, Swap(c))
  {
    if parsed != [] {
      var n := |parsed| - 1;
      ExpandDenotes(parsed[..n], c);
      VariantsDenote(parsed[n], c);
      InAppend(Expand(parsed[..n]), Variants(parsed[n]), c);
    }
  }

  // ---- sorting ----

  /** The comparator: by lower end, the longer range first. */
  predicate Before(a: Range, b: Range) {
    a.lo < b.lo || (a.lo == b.lo && a.hi >= b.hi)
  }

  predicate Sorted(ranges: seq<Range>) {
    forall i, j :: 0 <= i < j < |ranges| ==> Before(ranges[i], ranges[j])
  }

  /** Stands for the library's sort; ranges that compare equal are equal, so the result
      does not depend on the algorithm. */
  function Sort(ranges: seq<Range>): seq<Range> {
    if ranges == [] then [] else Insert(Sort(ranges[..|ranges| - 1]), ranges[|ranges| - 1])
  }

  function Insert(ranges: seq<Range>, r: Range): seq<Range> {
    if ranges == [] || Before(ranges[|ranges| - 1], r) then ranges + [r]
    else Insert(ranges[..|ranges| - 1], r) + [ranges[|ranges| - 1]]
  }

  lemma {:induction false} InsertSorts(ranges: seq<Range>, r: Range)
    requires Sorted(ranges)
    ensures Sorted(Insert(ranges, r)) && |Insert(ranges, r)| == |ranges| + 1
    ensures forall i :: 0 <= i < |ranges| + 1 ==> Insert(ranges, r)[i] == r || Insert(ranges, r)[i] in ranges
  {
    if ranges != [] && !Before(ranges[|ranges| - 1], r) {
      InsertSorts(ranges[..|ranges| - 1], r);
    }
  }

  lemma {:induction false} InsertKeeps(ranges: seq<Range>, r: Range)
    ensures multiset(Insert(ranges, r)) == multiset(ranges) + multiset{r}
  {
    if ranges != [] && !Before(ranges[|ranges| - 1], r) {
      InsertKeeps(ranges[..|ranges| - 1], r);
      assert ranges == ranges[..|ranges| - 1] + [ranges[|ranges| - 1]];
    }
  }

  lemma {:induction false} SortSorts(ranges: seq<Range>)
    ensures Sorted(Sort(ranges)) && multiset(Sort(ranges)) == multiset(ranges)
  {
    if ranges != [] {
      var n := |ranges| - 1;
      SortSorts(ranges[..n]);
      InsertSorts(Sort(ranges[..n]), ranges[n]);
      InsertKeeps(Sort(ranges[..n]), ranges[n]);
      assert ranges == ranges[..n] + [ranges[n]];
    }
  }

  lemma {:induction false} InMember(ranges: seq<Range>, c: nat)
    ensures In(ranges, c) <==> exists r :: r in ranges && Has(r, c)
  {
    if ranges != [] {
      var n := |ranges| - 1;
      InMember(ranges[..n], c);
      assert ranges == ranges[..n] + [ranges[n]];
      assert ranges[n] in ranges;
    }
  }

  lemma SameDenotation(a: seq<Range>, b: seq<Range>, c: nat)
    requires multiset(a) == multiset(b)
    ensures In(a, c) <==> In(b, c)
  {
    InMember(a, c);
    InMember(b, c);
    assert forall r :: r in a <==> r in multiset(a);
    assert forall r :: r in b <==> r in multiset(b);
  }

  // ---- merging ----

  /** Takes the next range of a sorted list: it is merged into the last one when it
      overlaps or touches it. */
  function Merge(done: seq<Range>, r: Range): seq<Range> {
    if done != [] && r.lo <= done[|done| - 1].hi + 1 then
      done[..|done| - 1] + [Range(done[|done| - 1].lo, Max(done[|done| - 1].hi, r.hi))]
    else done + [r]
  }

  function Consolidate(ranges: seq<Range>): seq<Range> {
    if ranges == [] then [] else Merge(Consolidate(ranges[..|ranges| - 1]), ranges[|ranges| - 1])
  }

  /** Sorted, pairwise disjoint and not even adjacent. */
  predicate Normal(ranges: seq<Range>) {
    Ordered(ranges) && forall i, j :: 0 <= i < j < |ranges| ==> ranges[i].hi + 1 < ranges[j].lo
  }

  lemma {:induction false} ConsolidateNormal(ranges: seq<Range>)
    requires Sorted(ranges) && Ordered(ranges)
    ensures Normal(Consolidate(ranges))
    ensures ranges != [] ==>
      var done := Consolidate(ranges); done != [] && done[|done| - 1].lo <= ranges[|ranges| - 1].lo
  {
    if ranges != [] {
      var n := |ranges| - 1;
      ConsolidateNormal(ranges[..n]);
      if n > 0 {
        assert Before(ranges[n - 1], ranges[n]);
      }
      MergeNormal(Consolidate(ranges[..n]), ranges[n]);
    }
  }

  lemma MergeNormal(done: seq<Range>, r: Range)
    requires Normal(done) && r.lo <= r.hi && (done != [] ==> done[|done| - 1].lo <= r.lo)
    ensures Normal(Merge(done, r))
  {
    if done != [] && r.lo > done[|done| - 1].hi + 1 {
      forall i | 0 <= i < |done|
        ensures done[i].hi + 1 < r.lo
      {
        assert i < |done| - 1 ==> done[i].hi + 1 < done[|done| - 1].lo;
      }
    }
  }

  lemma MergeDenotes(done: seq<Range>, r: Range, c: nat)
    requires r.lo <= r.hi
    requires done != [] ==> done[|done| - 1].lo <= done[|done| - 1].hi && done[|done| - 1].lo <= r.lo
    ensures In(Merge(done, r), c) <==> In(done, c) || Has(r, c)
  {
    if done != [] && r.lo <= done[|done| - 1].hi + 1 {
      assert Merge(done, r)[..|done| - 1] == done[..|done| - 1];
    } else {
      assert (done + [r])[..|done|] == done;
    }
  }

  lemma {:induction false} ConsolidateDenotes(ranges: seq<Range>, c: nat)
    requires Sorted(ranges) && Ordered(ranges)
    ensures In(Consolidate(ranges), c) <==> In(ranges, c)
  {
    if ranges != [] {
      var n := |ranges| - 1;
      ConsolidateDenotes(ranges[..n], c);
      ConsolidateNormal(ranges[..n]);
      if n > 0 {
        assert Before(ranges[n - 1], ranges[n]);
      }
      MergeDenotes(Consolidate(ranges[..n]), ranges[n], c);
    }
  }

  // ---- the whole ----

  function Folded(parsed: seq<Range>): seq<Range> {
    Consolidate(Sort(Expand(parsed)))
  }

  /** The folded ranges are in normal form and denote exactly the characters of the set
      and their other cases. */
  lemma FoldIsCaseClosure(parsed: seq<Range>, c: nat)
    requires Ordered(parsed)
    ensures Normal(Folded(parsed))
    ensures In(Folded(parsed), c) <==> In(parsed, c) || In(parsed, Swap(c))
  {
    var expanded := Expand(parsed);
    var sorted := Sort(expanded);
    ExpandDenotes(parsed, c);
    SortSorts(expanded);
    SameDenotation(sorted, expanded, c);
    OrderedPermutation(sorted, expanded);
    ConsolidateNormal(sorted);
    ConsolidateDenotes(sorted, c);
  }

  lemma OrderedPermutation(a: seq<Range>, b: seq<Range>)
    requires multiset(a) == multiset(b) && Ordered(b)
    ensures Ordered(a)
  {
    forall i | 0 <= i < |a|
      ensures a[i].lo <= a[i].hi
    {
      assert a[i] in multiset(a);
      assert a[i] in b;
    }
  }

  /** A set of characters has one normal form. */
  lemma {:induction false} NormalFormIsUnique(a: seq<Range>, b: seq<Range>)
    requires Normal(a) && Normal(b) && forall c: nat :: In(a, c) <==> In(b, c)
    ensures a == b
  {
    if a != [] && b != [] {
      var m, n := |a| - 1, |b| - 1;
      LastRange(a, b);
      forall c: nat
        ensures In(a[..m], c) <==> In(b[..n], c)
      {
        BelowLast(a, c);
        BelowLast(b, c);
      }
      NormalFormIsUnique(a[..m], b[..n]);
      assert a == a[..m] + [a[m]] && b == b[..n] + [b[n]];
    } else if a != [] {
      assert In(a, a[|a| - 1].lo);
    } else if b != [] {
      assert In(b, b[|b| - 1].lo);
    }
  }

  lemma {:induction false} BelowLast(a: seq<Range>, c: nat)
    requires Normal(a) && a != []
    ensures In(a[..|a| - 1], c) <==> In(a, c) && c < a[|a| - 1].lo
    ensures In(a, c) ==> c <= a[|a| - 1].hi
    ensures In(a[..|a| - 1], c) ==> c + 1 < a[|a| - 1].lo
  {
    if |a| > 1 {
      BelowLast(a[..|a| - 1], c);
      assert a[|a| - 2].hi + 1 < a[|a| - 1].lo;
    }
  }

  lemma LastRange(a: seq<Range>, b: seq<Range>)
    requires Normal(a) && Normal(b) && a != [] && b != [] && forall c: nat :: In(a, c) <==> In(b, c)
    ensures a[|a| - 1] == b[|b| - 1]
  {
    var x, y := a[|a| - 1], b[|b| - 1];
    assert In(a, x.hi) && In(b, y.hi) && In(a, x.lo) && In(b, y.lo);
    BelowLast(a, y.hi);
    BelowLast(b, x.hi);
    BelowLast(a, y.lo);
    BelowLast(b, x.lo);
    if x.lo < y.lo {
      assert In(a, (y.lo - 1) as nat);
      BelowLast(b, y.lo - 1);
    } else if y.lo < x.lo {
      assert In(b, (x.lo - 1) as nat);
      BelowLast(a, x.lo - 1);
    }
  }

  lemma FoldTwice(parsed: seq<Range>, once: seq<Range>, c: nat)
    requires Ordered(parsed) && once == Folded(parsed)
    ensures Normal(once) && Normal(Folded(once))
    ensures In(Folded(once), c) <==> In(once, c)
  {
    FoldIsCaseClosure(parsed, c);
    FoldIsCaseClosure(parsed, Swap(c));
    assert Ordered(once);
    FoldIsCaseClosure(once, c);
    assert Swap(Swap(c)) == c;
  }

  /** Folding twice changes nothing. */
  lemma FoldIsIdempotent(parsed: seq<Range>)
    requires Ordered(parsed)
    ensures Folded(Folded(parsed)) == Folded(parsed)
  {
    var once := Folded(parsed);
    var twice := Folded(once);
    FoldTwice(parsed, once, 0);
    forall c: nat
      ensures In(twice, c) <==> In(once, c)
    {
      FoldTwice(parsed, once, c);
    }
    NormalFormIsUnique(twice, once);
  }

  // ---- the loops ----

  method ExpandRanges(parsed: seq<Range>) returns (ranges: seq<Range>)
    ensures ranges == Expand(parsed)
  {
    ranges := [];
    for i := 0 to |parsed|
      invariant ranges == Expand(parsed[..i])
    {
      assert parsed[..i + 1][..i] == parsed[..i];
      ranges := PushVariants(ranges, parsed[i].lo, parsed[i].hi);
    }
    assert parsed[..|parsed|] == parsed;
  }

  /** The body of the parsing loop once the ends of a range are known. */
  method PushVariants(before: seq<Range>, start: nat, end: nat) returns (ranges: seq<Range>)
    ensures ranges == before + Variants(Range(start, end))
  {
    ranges := before + [Range(start, end)];
    if !(end < 65 || start > 122) {
      if !(end < 65 || start > 90) {
        ranges := ranges + [Range(SetBit5(Max(65, start)), SetBit5(Min(end, 90)))];
      }
      if !(end < 97 || start > 122) {
        ranges := ranges + [Range(ClearBit5(Max(97, start)), ClearBit5(Min(end, 122)))];
      }
    }
  }

  method ConsolidateRanges(ranges: seq<Range>) returns (consolidated: seq<Range>)
    ensures consolidated == Consolidate(ranges)
  {
    consolidated := [];
    for i := 0 to |ranges|
      invariant consolidated == Consolidate(ranges[..i])
    {
      assert ranges[..i + 1][..i] == ranges[..i];
      var range, last := ranges[i], |consolidated| - 1;
      if last >= 0 && range.lo <= consolidated[last].hi + 1 {
        consolidated := consolidated[last := Range(consolidated[last].lo, Max(consolidated[last].hi, range.hi))];
      } else {
        consolidated := consolidated + [range];
      }
    }
    assert ranges[..|ranges|] == ranges;
  }

  method CaseFoldRanges(parsed: seq<Range>) returns (consolidated: seq<Range>)
    ensures consolidated == Folded(parsed)
  {
    var ranges := ExpandRanges(parsed);
    consolidated := ConsolidateRanges(Sort(ranges));
  }
}
