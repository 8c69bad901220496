/** `MochiKit.Iter.groupby` and `groupby_as_array`: runs of items with equal keys, read
    lazily from one source iterator or collected at once. Items and keys are neither
    null nor undefined, so None stands for `undefined` in the closure's variables. */
module GroupBy {
  import opened Basics

  datatype Group<K, T> = Group(key: K, items: seq<T>)

  // ---- the batch form ----

  /** Puts an item in front of the groups of what follows it. */
  function Prepend<K(==), T>(k: K, x: T, groups: seq<Group<K, T>>): seq<Group<K, T>> {
    if groups != [] && groups[0].key == k then [Group(k, [x] + groups[0].items)] + groups[1..]
    else [Group(k, [x])] + groups
  }

  function Groups<K(==), T>(key: T -> K, source: seq<T>): seq<Group<K, T>> {
    if source == [] then [] else Prepend(key(source[0]), source[0], Groups(key, source[1..]))
  }

  function Concat<K, T>(groups: seq<Group<K, T>>): seq<T> {
    if groups == [] then [] else groups[0].items + Concat(groups[1..])
  }

  ghost predicate AllHave<K, T>(key: T -> K, k: K, items: seq<T>) {
    forall i :: 0 <= i < |items| ==> key(items[i]) == k
  }

  /** What grouping means: the groups hold the source in order, none is empty, every item
      has its group's key, and neighbouring groups have different keys. */
  ghost predicate IsGrouping<K, T>(key: T -> K, groups: seq<Group<K, T>>, source: seq<T>) {
    && Concat(groups) == source
    && Separated(key, groups)
  }

  ghost predicate Separated<K, T>(key: T -> K, groups: seq<Group<K, T>>) {
    groups != [] ==>
      && groups[0].items != [] && AllHave(key, groups[0].key, groups[0].items)
      && (|groups| > 1 ==> groups[0].key != groups[1].key)
      && Separated(key, groups[1..])
  }

  lemma {:induction false} GroupsGroup<K, T>(key: T -> K, source: seq<T>)
    ensures IsGrouping(key, Groups(key, source), source)
  {
    if source != [] {
      var rest := Groups(key, source[1..]);
      GroupsGroup(key, source[1..]);
      assert source == [source[0]] + source[1..];
      if rest != [] && rest[0].key == key(source[0]) {
        assert [source[0]] + rest[0].items + Concat(rest[1..]) == [source[0]] + (rest[0].items + Concat(rest[1..]));
      }
    }
  }

  lemma {:induction false} GroupingIsUnique<K, T>(key: T -> K, groups: seq<Group<K, T>>, source: seq<T>)
    requires IsGrouping(key, groups, source)
    ensures groups == Groups(key, source)
    decreases |source|
  {
    if groups != [] {
      var first, x := groups[0], groups[0].items[0];
      assert source[1..] == first.items[1..] + Concat(groups[1..]);
      assert first.items == [x] + first.items[1..];
      if |first.items| == 1 {
        assert first.items[1..] + Concat(groups[1..]) == Concat(groups[1..]);
        GroupingIsUnique(key, groups[1..], source[1..]);
        assert groups == [first] + groups[1..];
        assert first == Group(key(x), [x]);
        assert source[0] == x;
      } else {
        var shorter := [Group(first.key, first.items[1..])] + groups[1..];
        assert shorter[1..] == groups[1..];
        GroupingIsUnique(key, shorter, source[1..]);
        assert groups == [Group(first.key, [x] + shorter[0].items)] + shorter[1..];
      }
    }
  }

  /** Appends an item: to the last group if the keys agree, else as a new group. */
  function Append<K(==), T>(groups: seq<Group<K, T>>, k: K, x: T): seq<Group<K, T>> {
    if groups != [] && groups[|groups| - 1].key == k then
      groups[..|groups| - 1] + [Group(k, groups[|groups| - 1].items + [x])]
    else groups + [Group(k, [x])]
  }

  lemma {:induction false} GroupsAppend<K, T>(key: T -> K, source: seq<T>, x: T)
    ensures Groups(key, source + [x]) == Append(Groups(key, source), key(x), x)
  {
    if source == [] {
      assert (source + [x])[1..] == [];
    } else {
      assert (source + [x])[1..] == source[1..] + [x];
      GroupsAppend(key, source[1..], x);
      PrependAppend(key(source[0]), source[0], Groups(key, source[1..]), key(x), x);
    }
  }

  lemma AppendRest<K, T>(groups: seq<Group<K, T>>, l: K, x: T)
    requires |groups| > 1
    ensures Append(groups, l, x) == [groups[0]] + Append(groups[1..], l, x)
  {
  }

  lemma PrependAppend<K, T>(k: K, y: T, groups: seq<Group<K, T>>, l: K, x: T)
    ensures Prepend(k, y, Append(groups, l, x)) == Append(Prepend(k, y, groups), l, x)
  {
    if |groups| == 1 && groups[0].key == k == l {
      assert [y] + (groups[0].items + [x]) == [y] + groups[0].items + [x];
    } else if |groups| > 1 {
      AppendRest(groups, l, x);
      AppendRest(Prepend(k, y, groups), l, x);
      if groups[0].key != k {
        assert Prepend(k, y, groups)[1..] == groups;
      }
    }
  }

  method GroupbyAsArray<K(==), T>(key: T -> K, source: seq<T>) returns (groups: seq<Group<K, T>>)
    ensures groups == Groups(key, source)
  {
    groups := [];
    var first := true;
    var last: Option<K> := None;
    for i := 0 to |source|
      invariant groups == Groups(key, source[..i])
      invariant first <==> groups == []
      invariant !first ==> last == Some(groups[|groups| - 1].key)
    {
      assert source[..i + 1] == source[..i] + [source[i]];
      GroupsAppend(key, source[..i], source[i]);
      var k := key(source[i]);
      if first || last != Some(k) {
        assert (groups + [Group(k, [])])[..|groups|] == groups;
        groups := groups + [Group(k, [])];
      }
      var n := |groups| - 1;
      groups := groups[..n] + [Group(groups[n].key, groups[n].items + [source[i]])];
      assert [] + [source[i]] == [source[i]];
      assert groups == Append(Groups(key, source[..i]), k, source[i]);
      first := false;
      last := Some(k);
    }
    assert source[..|source|] == source;
  }

  // ---- the lazy form ----

  /** The closure: what the source has left, `pk`, `k`, `v` and the first-call flag. */
  datatype Lazy<K, T> = Lazy(left: seq<T>, pk: Option<K>, k: Option<K>, v: Option<T>, first: bool)

  function Start<K, T>(source: seq<T>): Lazy<K, T> {
    Lazy(source, None, None, None, true)
  }

  function Fetched<K, T>(key: T -> K, s: Lazy<K, T>): Lazy<K, T>
    requires s.left != []
  {
    s.(left := s.left[1..], v := Some(s.left[0]), k := Some(key(s.left[0])))
  }

  /** The outer `next`: skips what is left of the current group. None is StopIteration. */
  function Advance<K(==), T>(key: T -> K, s: Lazy<K, T>): (Lazy<K, T>, Option<K>)
    decreases |s.left|
  {
    if s.k != s.pk then (s.(pk := s.k), s.k)
    else if s.left == [] then (s, None)
    else
      var t := Fetched(key, s);
      if s.first then (t.(first := false, pk := t.k), t.k) else Advance(key, t)
  }

  /** The inner `next` of any group's iterator; they all share the closure. */
  function Take<K(==), T>(key: T -> K, s: Lazy<K, T>): (Lazy<K, T>, Option<T>) {
    if s.v.None? && s.left == [] then (s, None)
    else
      var t := if s.v.None? then Fetched(key, s) else s;
      if t.k != t.pk then (t, None) else (t.(v := None), t.v)
  }

  // ---- what a reader of the groups should see ----

  /** A reader over the batch form: no group asked for yet, t items taken of a group with
      others pending, or past the last group with at most one item still to be had. */
  datatype Cursor<K, T> =
    | Before(pending: seq<Group<K, T>>)
    | In(group: Group<K, T>, taken: nat, pending: seq<Group<K, T>>)
    | After(remnant: Option<T>)

  function NextGroup<K, T>(c: Cursor<K, T>): (Cursor<K, T>, Option<K>) {
    match c
    case Before(pending) =>
      if pending == [] then (c, None) else (In(pending[0], 0, pending[1..]), Some(pending[0].key))
    case In(group, taken, pending) =>
      if pending != [] then (In(pending[0], 0, pending[1..]), Some(pending[0].key))
      else if taken < |group.items| then (After(Some(group.items[|group.items| - 1])), None)
      else (After(None), None)
    case After(_) => (c, None)
  }

  function NextItem<K, T>(c: Cursor<K, T>): (Cursor<K, T>, Option<T>) {
    match c
    case Before(_) => (c, None)
    case In(group, taken, pending) =>
      if taken < |group.items| then (In(group, taken + 1, pending), Some(group.items[taken])) else (c, None)
    case After(remnant) => (After(None), remnant)
  }

  /** How many leading items have the key. */
  function Prefix<K(==), T>(key: T -> K, k: K, items: seq<T>): (n: nat)
    ensures n <= |items|
  {
    if items == [] || key(items[0]) != k then 0 else 1 + Prefix(key, k, items[1..])
  }

  function Pending<T>(v: Option<T>): seq<T> {
    if v.None? then [] else [v.value]
  }

  /** The closure stands for the reader. Inside a group, the items not yet taken are the
      fetched one and the source's leading run with the same key; when the look-ahead has
      crossed into the next group, nothing is left of this one. */
  ghost predicate Stands<K, T>(key: T -> K, s: Lazy<K, T>, c: Cursor<K, T>) {
    match c
    case Before(pending) => s == Start(s.left) && pending == Groups(key, s.left)
    case In(group, taken, pending) =>
      && !s.first && s.pk == Some(group.key) && taken <= |group.items|
      && (if s.k == s.pk then
            var m := Prefix(key, group.key, s.left);
            && group.items[taken..] == Pending(s.v) + s.left[..m]
            && pending == Groups(key, s.left[m..])
          else
            && s.v.Some? && s.k == Some(key(s.v.value))
            && taken == |group.items| && pending == Groups(key, [s.v.value] + s.left))
    case After(remnant) => !s.first && s.k == s.pk && s.left == [] && s.v == remnant
  }

  lemma {:induction false} GroupsRun<K, T>(key: T -> K, x: T, rest: seq<T>)
    ensures var m := Prefix(key, key(x), rest);
      Groups(key, [x] + rest) == [Group(key(x), [x] + rest[..m])] + Groups(key, rest[m..])
    decreases |rest|
  {
    var k, m := key(x), Prefix(key, key(x), rest);
    assert ([x] + rest)[1..] == rest;
    if m == 0 {
      assert [x] + rest[..m] == [x];
      assert rest[m..] == rest;
    }
    if rest != [] {
      assert rest == [rest[0]] + rest[1..];
      GroupsRun(key, rest[0], rest[1..]);
      if m > 0 {
        assert rest[..m] == [rest[0]] + rest[1..][..m - 1];
        assert rest[m..] == rest[1..][m - 1..];
      }
    }
  }

  /** Fetching an item of another key than the group's. */
  lemma EntersNext<K, T>(key: T -> K, s: Lazy<K, T>)
    requires s.k != s.pk && s.v.Some? && s.k == Some(key(s.v.value)) && !s.first
    ensures var (t, k) := Advance(key, s);
      var pending := Groups(key, [s.v.value] + s.left);
      pending != [] && k == Some(pending[0].key) && Stands(key, t, In(pending[0], 0, pending[1..]))
  {
    GroupsRun(key, s.v.value, s.left);
  }

  lemma {:induction false} AdvanceRefines<K, T>(key: T -> K, s: Lazy<K, T>, c: Cursor<K, T>)
    requires Stands(key, s, c)
    ensures Stands(key, Advance(key, s).0, NextGroup(c).0) && Advance(key, s).1 == NextGroup(c).1
    decreases |s.left|
  {
    match c {
      case Before(_) =>
        if s.left != [] {
          assert s.left == [s.left[0]] + s.left[1..];
          GroupsRun(key, s.left[0], s.left[1..]);
        }
      case In(group, taken, pending) =>
        if s.k != s.pk {
          EntersNext(key, s);
        } else if s.left != [] {
          assert s.left == [s.left[0]] + s.left[1..];
          SkipRefines(key, s, group, taken, pending);
        }
      case After(_) =>
    }
  }

  lemma TailSlices<T>(s: seq<T>, m: nat)
    requires 0 < m <= |s|
    ensures s[1..][m - 1..] == s[m..] && s[..m] == [s[0]] + s[1..][..m - 1]
  {
  }

  /** Fetching one more item of the group drops the ones before it. */
  lemma FetchSkips<K, T>(key: T -> K, s: Lazy<K, T>, group: Group<K, T>, taken: nat, pending: seq<Group<K, T>>)
    returns (skipped: nat)
    requires Stands(key, s, In(group, taken, pending)) && s.k == s.pk
    requires s.left != [] && Prefix(key, group.key, s.left) > 0
    ensures taken <= skipped < |group.items| && Fetched(key, s).k == s.pk
    ensures s.left[1..] == [] ==> group.items[|group.items| - 1] == s.left[0]
    ensures Stands(key, Fetched(key, s), In(group, skipped, pending))
  {
    var m := Prefix(key, group.key, s.left);
    TailSlices(s.left, m);
    skipped := |group.items| - m;
    assert group.items[skipped..] == group.items[taken..][|Pending(s.v)|..] == s.left[..m];
  }

  lemma {:induction false} SkipRefines<K, T>(key: T -> K, s: Lazy<K, T>, group: Group<K, T>, taken: nat,
      pending: seq<Group<K, T>>)
    requires Stands(key, s, In(group, taken, pending)) && s.k == s.pk && s.left != []
    ensures Stands(key, Advance(key, s).0, NextGroup(In(group, taken, pending)).0)
    ensures Advance(key, s).1 == NextGroup(In(group, taken, pending)).1
    decreases |s.left|
  {
    var t := Fetched(key, s);
    if Prefix(key, group.key, s.left) == 0 {
      assert s.left[0..] == [s.left[0]] + s.left[1..];
      EntersNext(key, t);
    } else {
      var skipped := FetchSkips(key, s, group, taken, pending);
      if t.left != [] {
        SkipRefines(key, t, group, skipped, pending);
      }
    }
  }

  lemma TakeRefines<K, T>(key: T -> K, s: Lazy<K, T>, c: Cursor<K, T>)
    requires Stands(key, s, c) && !c.Before?
    ensures Stands(key, Take(key, s).0, NextItem(c).0) && Take(key, s).1 == NextItem(c).1
  {
    if c.In? && s.k == s.pk {
      var m, rest := Prefix(key, c.group.key, s.left), c.group.items[c.taken..];
      assert rest == Pending(s.v) + s.left[..m];
      if s.v.Some? {
        assert c.group.items[c.taken + 1..] == rest[1..] == s.left[..m];
      } else if m > 0 {
        assert c.group.items[c.taken + 1..] == rest[1..] == s.left[1..][..m - 1];
        assert s.left[1..][m - 1..] == s.left[m..];
      } else if s.left != [] {
        assert s.left[m..] == [s.left[0]] + s.left[1..];
      }
    }
  }

  // ---- whole readings ----

  /** Up to n calls of a group's `next`, keeping what they return. */
  function TakeUpTo<K(==), T>(key: T -> K, s: Lazy<K, T>, n: nat): (Lazy<K, T>, seq<T>)
    decreases n
  {
    if n == 0 then (s, [])
    else
      var (t, x) := Take(key, s);
      var (u, xs) := TakeUpTo(key, t, n - 1);
      (u, (if x.None? then [] else [x.value]) + xs)
  }

  /** Asks for a group and then for some of its items, once per entry of `wants`, until
      the groups run out. */
  function Read<K(==), T>(key: T -> K, s: Lazy<K, T>, wants: seq<nat>): seq<Group<K, T>>
    decreases |wants|
  {
    if wants == [] then []
    else
      var (t, k) := Advance(key, s);
      if k.None? then []
      else
        var (u, xs) := TakeUpTo(key, t, wants[0]);
        [Group(k.value, xs)] + Read(key, u, wants[1..])
  }

  function Cut<T>(items: seq<T>, n: nat): seq<T> {
    if n < |items| then items[..n] else items
  }

  /** The first groups of a list, each cut to the number of items wanted of it. */
  function CutAll<K, T>(groups: seq<Group<K, T>>, wants: seq<nat>): seq<Group<K, T>>
    decreases |wants|
  {
    if wants == [] || groups == [] then []
    else [Group(groups[0].key, Cut(groups[0].items, wants[0]))] + CutAll(groups[1..], wants[1..])
  }

  function ItemsUpTo<K, T>(c: Cursor<K, T>, n: nat): (Cursor<K, T>, seq<T>)
    decreases n
  {
    if n == 0 then (c, [])
    else
      var (d, x) := NextItem(c);
      var (e, xs) := ItemsUpTo(d, n - 1);
      (e, (if x.None? then [] else [x.value]) + xs)
  }

  lemma {:induction false} TakesRefine<K, T>(key: T -> K, s: Lazy<K, T>, c: Cursor<K, T>, n: nat)
    requires Stands(key, s, c) && c.In?
    ensures Stands(key, TakeUpTo(key, s, n).0, ItemsUpTo(c, n).0) && TakeUpTo(key, s, n).1 == ItemsUpTo(c, n).1
    decreases n
  {
    if n > 0 {
      TakeRefines(key, s, c);
      TakesRefine(key, Take(key, s).0, NextItem(c).0, n - 1);
    }
  }

  lemma {:induction false} ItemsArePrefix<K, T>(c: Cursor<K, T>, n: nat)
    requires c.In? && c.taken <= |c.group.items|
    ensures ItemsUpTo(c, n).0.In? && ItemsUpTo(c, n).0.pending == c.pending
    ensures ItemsUpTo(c, n).1 == Cut(c.group.items[c.taken..], n)
    decreases n
  {
    if n > 0 {
      ItemsArePrefix(NextItem(c).0, n - 1);
      var rest := c.group.items[c.taken..];
      if rest != [] {
        assert c.group.items[c.taken + 1..] == rest[1..];
        CutFirst(rest, n);
      }
    }
  }

  lemma CutFirst<T>(items: seq<T>, n: nat)
    requires items != [] && n > 0
    ensures Cut(items, n) == [items[0]] + Cut(items[1..], n - 1)
  {
  }

  ghost function ToCome<K, T>(c: Cursor<K, T>): seq<Group<K, T>> {
    if c.After? then [] else c.pending
  }

  lemma {:induction false} ReadFrom<K, T>(key: T -> K, s: Lazy<K, T>, c: Cursor<K, T>, wants: seq<nat>)
    requires Stands(key, s, c)
    ensures Read(key, s, wants) == CutAll(ToCome(c), wants)
    decreases |wants|
  {
    if wants != [] {
      AdvanceRefines(key, s, c);
      var (t, k) := Advance(key, s);
      if k.Some? {
        var d := NextGroup(c).0;
        TakesRefine(key, t, d, wants[0]);
        ItemsArePrefix(d, wants[0]);
        assert d.group.items[0..] == d.group.items;
        ReadFrom(key, TakeUpTo(key, t, wants[0]).0, ItemsUpTo(d, wants[0]).0, wants[1..]);
      }
    }
  }

  /** Whatever number of items is taken of each group before asking for the next, the
      keys are those of the batch form and the items are a prefix of the batch group. */
  lemma LazyIsCutBatch<K, T>(key: T -> K, source: seq<T>, wants: seq<nat>)
    ensures Read(key, Start(source), wants) == CutAll(Groups(key, source), wants)
  {
    ReadFrom(key, Start(source), Before(Groups(key, source)), wants);
  }

  /** Taking everything gives the batch form. */
  lemma {:induction false} CutNothing<K, T>(groups: seq<Group<K, T>>, wants: seq<nat>)
    requires |groups| <= |wants| && forall i :: 0 <= i < |groups| ==> |groups[i].items| <= wants[i]
    ensures CutAll(groups, wants) == groups
    decreases |wants|
  {
    if groups != [] {
      CutNothing(groups[1..], wants[1..]);
      assert groups == [groups[0]] + groups[1..];
    }
  }

  lemma DrainingIsBatch<K, T>(key: T -> K, source: seq<T>, wants: seq<nat>)
    requires |Groups(key, source)| <= |wants|
    requires forall i :: 0 <= i < |Groups(key, source)| ==> |Groups(key, source)[i].items| <= wants[i]
    ensures Read(key, Start(source), wants) == Groups(key, source)
  {
    LazyIsCutBatch(key, source, wants);
    CutNothing(Groups(key, source), wants);
  }

  // ---- after the last group ----

  /** The closure after asking for a group and for some of its items, once per entry. */
  function ReadOn<K(==), T>(key: T -> K, s: Lazy<K, T>, wants: seq<nat>): Lazy<K, T>
    decreases |wants|
  {
    if wants == [] then s else ReadOn(key, TakeUpTo(key, Advance(key, s).0, wants[0]).0, wants[1..])
  }

  lemma {:induction false} ItemsTaken<K, T>(c: Cursor<K, T>, n: nat)
    requires c.In? && c.taken <= |c.group.items|
    ensures var left := |c.group.items| - c.taken;
      ItemsUpTo(c, n).0 == In(c.group, c.taken + (if n < left then n else left), c.pending)
    decreases n
  {
    if n > 0 {
      ItemsTaken(NextItem(c).0, n - 1);
    }
  }

  /** Having asked for all groups, the closure stands in the last one. */
  lemma {:induction false} ReadOnStands<K, T>(key: T -> K, s: Lazy<K, T>, c: Cursor<K, T>, wants: seq<nat>)
    requires Stands(key, s, c) && !c.After? && wants != [] && |wants| == |c.pending|
    ensures var last, want := c.pending[|c.pending| - 1], wants[|wants| - 1];
      Stands(key, ReadOn(key, s, wants), In(last, if want < |last.items| then want else |last.items|, []))
    decreases |wants|
  {
    AdvanceRefines(key, s, c);
    var t, d := Advance(key, s).0, NextGroup(c).0;
    TakesRefine(key, t, d, wants[0]);
    ItemsTaken(d, wants[0]);
    var u := TakeUpTo(key, t, wants[0]).0;
    if |wants| == 1 {
      assert wants[1..] == [] && c.pending[1..] == [];
      assert ReadOn(key, u, []) == u;
    } else {
      ReadOnStands(key, u, ItemsUpTo(d, wants[0]).0, wants[1..]);
    }
  }

  lemma {:induction false} ConcatLast<K, T>(key: T -> K, groups: seq<Group<K, T>>)
    requires groups != [] && Separated(key, groups)
    ensures var items := groups[|groups| - 1].items;
      items != [] && Concat(groups) != [] && Concat(groups)[|Concat(groups)| - 1] == items[|items| - 1]
  {
    if |groups| == 1 {
      assert groups[1..] == [];
      assert Concat(groups) == groups[0].items;
    } else {
      ConcatLast(key, groups[1..]);
      assert Concat(groups) == groups[0].items + Concat(groups[1..]);
      assert groups[1..][|groups[1..]| - 1] == groups[|groups| - 1];
    }
  }

  /** After the outer StopIteration an inner `next` still returns an item exactly when the
      last group was not taken to its end, namely the source's last item, and only once. */
  lemma LastItemIff<K, T>(key: T -> K, source: seq<T>, wants: seq<nat>)
    requires source != [] && |wants| == |Groups(key, source)|
    ensures wants != []
    ensures var outer := Advance(key, ReadOn(key, Start(source), wants));
      var inner, last := Take(key, outer.0), Groups(key, source)[|wants| - 1].items;
      && outer.1 == None
      && inner.1 == (if wants[|wants| - 1] < |last| then Some(source[|source| - 1]) else None)
      && Take(key, inner.0).1 == None
  {
    var groups := Groups(key, source);
    GroupsGroup(key, source);
    ConcatLast(key, groups);
    var s, want, last := ReadOn(key, Start(source), wants), wants[|wants| - 1], groups[|groups| - 1];
    ReadOnStands(key, Start(source), Before(groups), wants);
    var c := In(last, if want < |last.items| then want else |last.items|, []);
    AdvanceRefines(key, s, c);
    TakeRefines(key, Advance(key, s).0, NextGroup(c).0);
    TakeRefines(key, Take(key, Advance(key, s).0).0, NextItem(NextGroup(c).0).0);
  }

  // ---- the objects ----

  class GroupIterator<K(==), T> {
    const key: T -> K
    var left: seq<T>
    var pk: Option<K>
    var k: Option<K>
    var v: Option<T>
    var first: bool

    function Abs(): Lazy<K, T>
      reads this
    {
      Lazy(left, pk, k, v, first)
    }

    constructor (key: T -> K, source: seq<T>)
      ensures this.key == key && Abs() == Start(source)
    {
      this.key := key;
      left, pk, k, v, first := source, None, None, None, true;
    }

    /** False is the source's StopIteration. */
    method Fetch() returns (ok: bool)
      modifies this
      ensures ok == (old(left) != [])
      ensures Abs() == if ok then Fetched(key, old(Abs())) else old(Abs())
    {
      ok := left != [];
      if ok {
        v := Some(left[0]);
        k := Some(key(left[0]));
        left := left[1..];
      }
    }

    method Eat() returns (ret: Option<T>)
      modifies this`v
      ensures ret == old(v) && v == None
    {
      ret := v;
      v := None;
    }

    method Next() returns (ret: Option<K>)
      modifies this
      ensures (Abs(), ret) == Advance(key, old(Abs()))
    {
      ghost var start := Abs();
      while k == pk
        invariant Advance(key, Abs()) == Advance(key, start)
        decreases |left|
      {
        var ok := Fetch();
        if !ok {
          return None;
        }
        if first {
          first := false;
          break;
        }
      }
      pk := k;
      ret := k;
    }

    method NextItem() returns (ret: Option<T>)
      modifies this
      ensures (Abs(), ret) == Take(key, old(Abs()))
    {
      if v == None {
        var ok := Fetch();
        if !ok {
          return None;
        }
      }
      if k != pk {
        return None;
      }
      ret := Eat();
    }
  }
}
