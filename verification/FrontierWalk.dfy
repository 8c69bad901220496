/** `TotalFileSizeConcurrent`: the main thread walks the tree level by level;
    each pool task only lists one directory, so no task ever waits. */
module FrontierWalk {
  import opened FileTree

  datatype SubDirectoriesAndSize = SubDirectoriesAndSize(size: nat, subDirectories: seq<Node>)

  /** Number of nodes, the quantity that shrinks from one frontier to the next. */
  function Count(node: Node): nat {
    if node.Dir? then 1 + CountAll(node.children) else 1
  }

  function CountAll(nodes: seq<Node>): nat {
    if nodes == [] then 0 else Count(nodes[0]) + CountAll(nodes[1..])
  }

  lemma {:induction false} CountAllAppend(s: seq<Node>, t: seq<Node>)
    ensures CountAll(s + t) == CountAll(s) + CountAll(t)
    ensures SizeAll(s + t) == SizeAll(s) + SizeAll(t)
  {
    if s == [] {
      assert s + t == t;
    } else {
      CountAllAppend(s[1..], t);
      assert (s + t)[1..] == s[1..] + t;
    }
  }

  ghost predicate NoFiles(nodes: seq<Node>) {
    forall node :: node in nodes ==> !node.File?
  }

  /** One pool task: the files directly below `file`, and what is left to visit. */
  method GetTotalAndSubDirs(file: Node) returns (r: SubDirectoriesAndSize)
    ensures NoFiles(r.subDirectories)
    ensures !file.File? ==> r.size + SizeAll(r.subDirectories) == Size(file)
    ensures file.File? ==> r == SubDirectoriesAndSize(0, [])
    ensures CountAll(r.subDirectories) < Count(file)
  {
    var total: nat := 0;
    var subDirectories: seq<Node> := [];
    if file.Dir? {
      for i := 0 to |file.children|
        invariant NoFiles(subDirectories)
        invariant total + SizeAll(subDirectories) == SizeAll(file.children[..i])
        invariant CountAll(subDirectories) <= CountAll(file.children[..i])
      {
        var child := file.children[i];
        SizeAllSnoc(file.children[..i], child);
        CountAllAppend(file.children[..i], [child]);
        assert file.children[..i] + [child] == file.children[..i + 1];
        if child.File? {
          total := total + child.length;
        } else {
          CountAllAppend(subDirectories, [child]);
          subDirectories := subDirectories + [child];
        }
      }
      assert file.children[..|file.children|] == file.children;
    }
    r := SubDirectoriesAndSize(total, subDirectories);
  }

  /** The frontier loop agrees with the sequential program except on a root that
      is itself a file, which `getTotalAndSubDirs` counts as nothing. */
  method GetTotalSizeOfFilesInDir(file: Node) returns (total: nat)
    ensures total == if file.File? then 0 else Size(file)
    ensures total == Size(file) <==> !(file.File? && file.length > 0)
  {
    total := 0;
    var directories := [file];
    var firstRound := true;
    while directories != []
      invariant firstRound ==> directories == [file] && total == 0
      invariant !firstRound && file.File? ==> directories == [] && total == 0
      invariant !firstRound && !file.File? ==> NoFiles(directories)
      invariant !file.File? ==> total + SizeAll(directories) == Size(file)
      decreases CountAll(directories)
    {
      var next: seq<Node>, found: nat := [], 0;
      for i := 0 to |directories|
        invariant NoFiles(next)
        invariant NoFiles(directories) ==> found + SizeAll(next) == SizeAll(directories[..i])
        invariant CountAll(next) + i <= CountAll(directories[..i])
        invariant file.File? ==> next == [] && found == 0
      {
        var r := GetTotalAndSubDirs(directories[i]);
        CountAllAppend(next, r.subDirectories);
        CountAllAppend(directories[..i], [directories[i]]);
        assert directories[..i] + [directories[i]] == directories[..i + 1];
        next := next + r.subDirectories;
        found := found + r.size;
      }
      assert directories[..|directories|] == directories;
      directories := next;
      total := total + found;
      firstRound := false;
    }
  }
}
