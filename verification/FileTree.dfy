/** The file system the directory-size programs walk, and the sequential
    program, which is the specification of all the concurrent ones. */
module FileTree {

  /** What `java.io.File` shows of a node: `isFile()` with its `length()`, a
      directory with its listing, or a node whose `listFiles()` is null. */
  datatype Node = File(length: nat) | Dir(children: seq<Node>) | Unlistable

  function Size(node: Node): nat {
    match node
    case File(length) => length
    case Dir(children) => SizeAll(children)
    case Unlistable => 0
  }

  function SizeAll(nodes: seq<Node>): nat {
    if nodes == [] then 0 else Size(nodes[0]) + SizeAll(nodes[1..])
  }

  lemma {:induction false} SizeAllSnoc(nodes: seq<Node>, last: Node)
    ensures SizeAll(nodes + [last]) == SizeAll(nodes) + Size(last)
  {
    if nodes == [] {
      assert nodes + [last] == [last];
    } else {
      SizeAllSnoc(nodes[1..], last);
      assert (nodes + [last])[1..] == nodes[1..] + [last];
    }
  }

  /** The total over any sequence, used for the contributions of threads,
      queued visits and queued numbers. */
  function Sum<T>(f: T -> int, s: seq<T>): int {
    if s == [] then 0 else f(s[0]) + Sum(f, s[1..])
  }

  lemma {:induction false} SumAppend<T>(f: T -> int, s: seq<T>, t: seq<T>)
    ensures Sum(f, s + t) == Sum(f, s) + Sum(f, t)
  {
    if s == [] {
      assert s + t == t;
    } else {
      SumAppend(f, s[1..], t);
      assert (s + t)[1..] == s[1..] + t;
    }
  }

  lemma {:induction false} SumUpdate<T>(f: T -> int, s: seq<T>, i: nat, x: T)
    requires i < |s|
    ensures Sum(f, s[i := x]) == Sum(f, s) - f(s[i]) + f(x)
  {
    if i == 0 {
      assert s[i := x][1..] == s[1..];
    } else {
      SumUpdate(f, s[1..], i - 1, x);
      assert s[i := x][1..] == s[1..][i - 1 := x];
    }
  }

  lemma {:induction false} SumSnoc<T>(f: T -> int, s: seq<T>, x: T)
    ensures Sum(f, s + [x]) == Sum(f, s) + f(x)
  {
    SumAppend(f, s, [x]);
    assert Sum(f, [x]) == f(x) + Sum(f, []);
  }

  lemma {:induction false} SumRepeat<T>(f: T -> int, x: T, n: nat)
    requires f(x) == 0
    ensures Sum(f, seq(n, _ => x)) == 0
  {
    var s := seq(n, _ => x);
    if n > 0 {
      assert s[1..] == seq(n - 1, _ => x);
      SumRepeat(f, x, n - 1);
    }
  }

  /** A sum of non-negative terms is zero exactly when every term is. */
  lemma {:induction false} SumZero<T>(f: T -> int, s: seq<T>)
    requires forall x :: x in s ==> f(x) >= 0
    ensures Sum(f, s) >= 0
    ensures Sum(f, s) == 0 <==> forall x :: x in s ==> f(x) == 0
  {
    if s != [] {
      SumZero(f, s[1..]);
      assert forall x :: x in s <==> x == s[0] || x in s[1..];
    }
  }

  /** `getTotalsizeOfFilesInDir`: the recursive loop adds up the lengths of all
      the files below `file`. */
  method GetTotalSizeOfFilesInDir(file: Node) returns (total: nat)
    ensures total == Size(file)
  {
    if file.File? {
      return file.length;
    }
    total := 0;
    if file.Dir? {
      for i := 0 to |file.children|
        invariant total == SizeAll(file.children[..i])
      {
        var size := GetTotalSizeOfFilesInDir(file.children[i]);
        total := total + size;
        SizeAllSnoc(file.children[..i], file.children[i]);
        assert file.children[..i] + [file.children[i]] == file.children[..i + 1];
      }
      assert file.children[..|file.children|] == file.children;
    }
  }
}
