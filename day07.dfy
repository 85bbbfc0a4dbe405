/** No space left on device: the directory tree rebuilt from a terminal
    session, and the size queries over it. */
module Day07 {
  import opened Wrappers
  import opened Text

  datatype File = File(name: string, size: nat)

  /** A directory with its subdirectories and files in the order they were
      listed. The parent link of the source is the path that leads here. */
  datatype Directory = Directory(name: string, children: seq<Directory>, files: seq<File>)

  function Sum(s: seq<nat>): nat {
    if s == [] then 0 else Sum(s[..|s| - 1]) + s[|s| - 1]
  }

  function FileSizes(files: seq<File>): nat {
    if files == [] then 0 else FileSizes(files[..|files| - 1]) + files[|files| - 1].size
  }

  /** `get_size`: the file sizes plus the sizes of the subdirectories. */
  function Size(d: Directory): nat
    decreases d, 1
  {
    FileSizes(d.files) + ChildrenSize(d.children)
  }

  function ChildrenSize(cs: seq<Directory>): nat
    decreases cs, 0
  {
    if cs == [] then 0 else ChildrenSize(cs[..|cs| - 1]) + Size(cs[|cs| - 1])
  }

  /** The sizes of every directory in the tree, this one first. */
  function AllSizes(d: Directory): (r: seq<nat>)
    ensures |r| >= 1 && r[0] == Size(d)
    decreases d, 1
  {
    [Size(d)] + ChildrenAllSizes(d.children)
  }

  function ChildrenAllSizes(cs: seq<Directory>): seq<nat>
    decreases cs, 0
  {
    if cs == [] then [] else ChildrenAllSizes(cs[..|cs| - 1]) + AllSizes(cs[|cs| - 1])
  }

  /** No directory is larger than the directory containing it. */
  lemma {:induction false} SizeDominates(d: Directory)
    ensures forall x :: x in AllSizes(d) ==> x <= Size(d)
    decreases d, 1
  {
    ChildrenSizeDominates(d.children);
  }

  lemma {:induction false} ChildrenSizeDominates(cs: seq<Directory>)
    ensures forall x :: x in ChildrenAllSizes(cs) ==> x <= ChildrenSize(cs)
    decreases cs, 0
  {
    if cs != [] {
      ChildrenSizeDominates(cs[..|cs| - 1]);
      SizeDominates(cs[|cs| - 1]);
    }
  }

  /** `get_sum_of_sizes_of_atmost`: the children's sums, plus this
      directory's size when it is below `n`. */
  function SumBelow(d: Directory, n: int): nat
    decreases d, 1
  {
    ChildrenSumBelow(d.children, n) + (if Size(d) < n then Size(d) else 0)
  }

  function ChildrenSumBelow(cs: seq<Directory>, n: int): nat
    decreases cs, 0
  {
    if cs == [] then 0 else ChildrenSumBelow(cs[..|cs| - 1], n) + SumBelow(cs[|cs| - 1], n)
  }

  /** The sizes in `s` that are below `n`, in order. */
  function Below(s: seq<nat>, n: int): (r: seq<nat>)
    ensures forall x :: x in r ==> x in s && x < n
    ensures forall x :: x in s && x < n ==> x in r
  {
    if s == [] then [] else Below(s[..|s| - 1], n) + (if s[|s| - 1] < n then [s[|s| - 1]] else [])
  }

  lemma {:induction false} SumConcat(a: seq<nat>, b: seq<nat>)
    ensures Sum(a + b) == Sum(a) + Sum(b)
  {
    if b != [] {
      assert (a + b)[..|a + b| - 1] == a + b[..|b| - 1];
      SumConcat(a, b[..|b| - 1]);
    } else {
      assert a + b == a;
    }
  }

  lemma {:induction false} BelowConcat(a: seq<nat>, b: seq<nat>, n: int)
    ensures Below(a + b, n) == Below(a, n) + Below(b, n)
  {
    if b != [] {
      assert (a + b)[..|a + b| - 1] == a + b[..|b| - 1];
      BelowConcat(a, b[..|b| - 1], n);
    } else {
      assert a + b == a;
    }
  }

  /** The recursive sum is the total of every directory size below `n`,
      each directory counted once. */
  lemma {:induction false} SumBelowIsTotal(d: Directory, n: int)
    ensures SumBelow(d, n) == Sum(Below(AllSizes(d), n))
    decreases d, 1
  {
    ChildrenSumBelowIsTotal(d.children, n);
    var rest := ChildrenAllSizes(d.children);
    BelowConcat([Size(d)], rest, n);
    assert Below([Size(d)], n) == (if Size(d) < n then [Size(d)] else []) by {
      assert [Size(d)][..0] == [];
    }
    SumConcat(Below([Size(d)], n), Below(rest, n));
  }

  lemma {:induction false} ChildrenSumBelowIsTotal(cs: seq<Directory>, n: int)
    ensures ChildrenSumBelow(cs, n) == Sum(Below(ChildrenAllSizes(cs), n))
    decreases cs, 0
  {
    if cs != [] {
      var init, last := cs[..|cs| - 1], cs[|cs| - 1];
      ChildrenSumBelowIsTotal(init, n);
      SumBelowIsTotal(last, n);
      BelowConcat(ChildrenAllSizes(init), AllSizes(last), n);
      SumConcat(Below(ChildrenAllSizes(init), n), Below(AllSizes(last), n));
    }
  }

  function Min(s: seq<nat>): (m: nat)
    requires s != []
    ensures m in s && forall x :: x in s ==> m <= x
  {
    if |s| == 1 then s[0]
    else
      var rest := Min(s[..|s| - 1]);
      assert forall x :: x in s ==> x in s[..|s| - 1] || x == s[|s| - 1];
      if s[|s| - 1] < rest then s[|s| - 1] else rest
  }

  /** `get_size_of_smallest_dir_with_size_atleast`: the smallest of the
      children's answers, or else this directory's size when it is above
      `n`. */
  function SmallestAbove(d: Directory, n: int): Option<nat>
    decreases d, 1
  {
    var found := ChildrenSmallestAbove(d.children, n);
    if found == [] then (if Size(d) > n then Some(Size(d)) else None)
    else Some(Min(found))
  }

  /** The children's answers that are present, in order. */
  function ChildrenSmallestAbove(cs: seq<Directory>, n: int): seq<nat>
    decreases cs, 0
  {
    if cs == [] then []
    else
      var last := match SmallestAbove(cs[|cs| - 1], n) case Some(s) => [s] case None => [];
      ChildrenSmallestAbove(cs[..|cs| - 1], n) + last
  }

  /** The answer is the smallest directory size above `n`, and there is
      none exactly when no directory is above `n`. */
  lemma {:induction false} SmallestAboveIsMinimum(d: Directory, n: int)
    ensures SmallestAbove(d, n).Some? ==> SmallestAbove(d, n).value in AllSizes(d) && SmallestAbove(d, n).value > n
    ensures forall x :: x in AllSizes(d) && x > n ==> SmallestAbove(d, n).Some? && SmallestAbove(d, n).value <= x
    decreases d, 1
  {
    var cs := d.children;
    ChildrenSmallestAboveAreMinima(cs, n);
    ChildrenSizeDominates(cs);
    assert forall x :: x in AllSizes(d) ==> x == Size(d) || x in ChildrenAllSizes(cs);
  }

  lemma {:induction false} ChildrenSmallestAboveAreMinima(cs: seq<Directory>, n: int)
    ensures forall y :: y in ChildrenSmallestAbove(cs, n) ==> y in ChildrenAllSizes(cs) && y > n
    ensures forall x :: x in ChildrenAllSizes(cs) && x > n ==> exists y :: y in ChildrenSmallestAbove(cs, n) && y <= x
    decreases cs, 0
  {
    if cs != [] {
      var init, last := cs[..|cs| - 1], cs[|cs| - 1];
      ChildrenSmallestAboveAreMinima(init, n);
      SmallestAboveIsMinimum(last, n);
      var found := ChildrenSmallestAbove(cs, n);
      assert forall y :: y in ChildrenSmallestAbove(init, n) ==> y in found;
      forall x | x in ChildrenAllSizes(cs) && x > n
        ensures exists y :: y in found && y <= x
      {
        if x in ChildrenAllSizes(init) {
          var y :| y in ChildrenSmallestAbove(init, n) && y <= x;
          assert y in found;
        } else {
          assert x in AllSizes(last);
          assert SmallestAbove(last, n).value in found;
        }
      }
    }
  }

  /** The threshold of the first part. */
  const SmallLimit: nat := 100000

  /** The size the second part must free: used space minus 40000000, a
      `u32` subtraction that panics when less is used. */
  function SizeToFree(root: Directory): nat
    requires Size(root) >= 40000000
  {
    Size(root) - 40000000
  }

  /** `get_sum_of_sizes_of_atmost` as it was evidently meant: sizes of at
      most `n` are counted. */
  function SumAtMost(d: Directory, n: nat): (r: nat)
    ensures r == Sum(Below(AllSizes(d), n + 1))
  {
    SumBelowIsTotal(d, n + 1);
    SumBelow(d, n + 1)
  }

  /** The smallest directory as it was evidently meant: a directory of
      exactly `n` frees enough. */
  function SmallestAtLeast(d: Directory, n: nat): (r: Option<nat>)
    ensures r.Some? ==> r.value in AllSizes(d) && r.value >= n
    ensures forall x :: x in AllSizes(d) && x >= n ==> r.Some? && r.value <= x
  {
    SmallestAboveIsMinimum(d, n - 1);
    SmallestAbove(d, n - 1)
  }

  /** A directory of exactly the limit is left out of the first sum and
      out of the second search as written. */
  lemma ExactSizeIsSkipped()
    ensures SumBelow(Directory("/", [], [File("a", 100000)]), SmallLimit) == 0
    ensures SumAtMost(Directory("/", [], [File("a", 100000)]), SmallLimit) == 100000
    ensures SmallestAbove(Directory("/", [], [File("a", 5)]), 5) == None
    ensures SmallestAtLeast(Directory("/", [], [File("a", 5)]), 5) == Some(5)
  {
    var big := Directory("/", [], [File("a", 100000)]);
    assert FileSizes(big.files) == 100000 by {
      assert big.files[..0] == [];
    }
    var small := Directory("/", [], [File("a", 5)]);
    assert FileSizes(small.files) == 5 by {
      assert small.files[..0] == [];
    }
  }

  // ---------------------------------------------------------------------
  // Rebuilding the tree

  /** `path` leads from `d` through child indices to a directory. */
  predicate ValidPath(d: Directory, path: seq<nat>)
    decreases |path|
  {
    path == [] || (path[0] < |d.children| && ValidPath(d.children[path[0]], path[1..]))
  }

  /** The directory `path` leads to. */
  function At(d: Directory, path: seq<nat>): Directory
    requires ValidPath(d, path)
    decreases |path|
  {
    if path == [] then d else At(d.children[path[0]], path[1..])
  }

  /** The tree with the directory at `path` replaced by `r`. */
  function UpdateAt(d: Directory, path: seq<nat>, r: Directory): (u: Directory)
    requires ValidPath(d, path)
    ensures path == [] ==> u == r
    ensures path != [] ==> u.name == d.name
    ensures path != [] ==> u.files == d.files && |u.children| == |d.children|
    decreases |path|
  {
    if path == [] then r
    else d.(children := d.children[path[0] := UpdateAt(d.children[path[0]], path[1..], r)])
  }

  lemma {:induction false} ChildrenSizeUpdate(cs: seq<Directory>, i: nat, c: Directory)
    requires i < |cs|
    ensures ChildrenSize(cs[i := c]) + Size(cs[i]) == ChildrenSize(cs) + Size(c)
  {
    var u := cs[i := c];
    if i < |cs| - 1 {
      assert u[..|u| - 1] == cs[..|cs| - 1][i := c];
      ChildrenSizeUpdate(cs[..|cs| - 1], i, c);
    } else {
      assert u[..|u| - 1] == cs[..|cs| - 1];
    }
  }

  /** Replacing one directory changes the total size by the difference. */
  lemma {:induction false} SizeAfterUpdate(d: Directory, path: seq<nat>, r: Directory)
    requires ValidPath(d, path)
    ensures Size(UpdateAt(d, path, r)) + Size(At(d, path)) == Size(d) + Size(r)
    decreases |path|
  {
    if path != [] {
      var i := path[0];
      SizeAfterUpdate(d.children[i], path[1..], r);
      ChildrenSizeUpdate(d.children, i, UpdateAt(d.children[i], path[1..], r));
    }
  }

  /** Replacing a directory by one with at least its children keeps every
      path valid. */
  lemma {:induction false} UpdateKeepsPaths(d: Directory, path: seq<nat>, r: Directory, other: seq<nat>)
    requires ValidPath(d, path) && ValidPath(d, other)
    requires |At(d, path).children| <= |r.children|
    requires forall k :: 0 <= k < |At(d, path).children| ==> r.children[k] == At(d, path).children[k]
    ensures ValidPath(UpdateAt(d, path, r), other)
    decreases |path|
  {
    if path == [] {
      if other != [] {
        assert r.children[other[0]] == d.children[other[0]];
      }
    } else if other != [] {
      var u := UpdateAt(d, path, r);
      if other[0] == path[0] {
        UpdateKeepsPaths(d.children[path[0]], path[1..], r, other[1..]);
      } else {
        assert u.children[other[0]] == d.children[other[0]];
      }
    }
  }

  /** One line of `ls` output: `dir x` adds an empty subdirectory, any
      other line a file whose size is read as `u32`. A line without a
      space or with a bad size panics. */
  function LsLine(d: Directory, line: string): (r: Option<Directory>)
    ensures r.Some? ==> r.value.name == d.name
    ensures r.Some? ==> |r.value.children| >= |d.children| && forall k :: 0 <= k < |d.children| ==> r.value.children[k] == d.children[k]
  {
    match SplitOnce(line, ' ')
    case None => None
    case Some((typesize, name)) =>
      if typesize == "dir" then Some(d.(children := d.children + [Directory(name, [], [])]))
      else match ParseNat(typesize)
        case Some(size) => if size < 0x1_0000_0000 then Some(d.(files := d.files + [File(name, size)])) else None
        case None => None
  }

  /** The size a line of `ls` output adds. */
  function LineSize(line: string): nat {
    match SplitOnce(line, ' ')
    case None => 0
    case Some((typesize, _)) =>
      if typesize == "dir" then 0 else match ParseNat(typesize) case Some(size) => size case None => 0
  }

  /** A `dir` line adds exactly one empty subdirectory; any other line
      exactly one file, of the size it names. */
  lemma LsLineAdds(d: Directory, a: string, name: string)
    requires ' ' !in a
    ensures a == "dir" ==> LsLine(d, a + " " + name) == Some(d.(children := d.children + [Directory(name, [], [])]))
    ensures a != "dir" && LsLine(d, a + " " + name).Some? ==>
      ParseNat(a).Some? && LsLine(d, a + " " + name) == Some(d.(files := d.files + [File(name, ParseNat(a).value)]))
    ensures LsLine(d, a + " " + name).Some? ==> Size(LsLine(d, a + " " + name).value) == Size(d) + LineSize(a + " " + name)
  {
    SplitOnceAt(a, ' ', name);
    assert a + " " + name == a + [' '] + name;
    var r := LsLine(d, a + " " + name);
    if r.Some? && a != "dir" {
      var f := r.value.files;
      assert f[..|f| - 1] == d.files;
    }
    if a == "dir" {
      var c := r.value.children;
      assert c[..|c| - 1] == d.children;
      assert Size(Directory(name, [], [])) == 0;
    }
  }

  /** `mutate_from_ls_output` as a fold over the lines. */
  function Ls(d: Directory, lines: seq<string>): (r: Option<Directory>)
    ensures r.Some? ==> r.value.name == d.name
    ensures r.Some? ==> |r.value.children| >= |d.children| && forall k :: 0 <= k < |d.children| ==> r.value.children[k] == d.children[k]
  {
    if lines == [] then Some(d)
    else match Ls(d, lines[..|lines| - 1])
      case None => None
      case Some(e) => LsLine(e, lines[|lines| - 1])
  }

  /** `mutate_from_ls_output`: each line of the output added in turn. */
  method MutateFromLs(d: Directory, output: string) returns (r: Option<Directory>)
    ensures r == Ls(d, Lines(output))
  {
    var lines := Lines(output);
    var current := d;
    for k := 0 to |lines|
      invariant Ls(d, lines[..k]) == Some(current)
    {
      assert lines[..k + 1][..k] == lines[..k];
      var next := LsLine(current, lines[k]);
      if next.None? {
        LsStaysFailed(d, lines, k + 1);
        return None;
      }
      current := next.value;
    }
    assert lines[..|lines|] == lines;
    return Some(current);
  }

  lemma {:induction false} LsStaysFailed(d: Directory, lines: seq<string>, k: nat)
    requires k <= |lines| && Ls(d, lines[..k]).None?
    ensures Ls(d, lines).None?
    decreases |lines| - k
  {
    if k < |lines| {
      assert lines[..k + 1][..k] == lines[..k];
      LsStaysFailed(d, lines, k + 1);
    } else {
      assert lines[..k] == lines;
    }
  }

  /** The first child named `name`, if any. */
  function FindChild(cs: seq<Directory>, name: string): (r: Option<nat>)
    ensures r.Some? ==> r.value < |cs| && cs[r.value].name == name && forall k :: 0 <= k < r.value ==> cs[k].name != name
    ensures r.None? ==> forall k :: 0 <= k < |cs| ==> cs[k].name != name
  {
    if cs == [] then None
    else if cs[0].name == name then Some(0)
    else match FindChild(cs[1..], name)
      case None => None
      case Some(i) => Some(i + 1)
  }

  /** `cd`: `..` goes to the parent (at the root it panics), `/` to the
      root, and any other name to the first child of that name, or nowhere
      when there is none. */
  function Cd(root: Directory, path: seq<nat>, arg: string): (r: Option<seq<nat>>)
    requires ValidPath(root, path)
    ensures r.Some? ==> ValidPath(root, r.value)
    ensures (arg == ".." && path != []) ==> r == Some(path[..|path| - 1])
    ensures (arg == ".." && path == []) <==> r.None?
    ensures arg == "/" ==> r == Some([])
    ensures arg != ".." && arg != "/" && (forall k :: 0 <= k < |At(root, path).children| ==> At(root, path).children[k].name != arg) ==> r == Some(path)
    ensures arg != ".." && arg != "/" && r.Some? && r.value != path ==>
      (|r.value| == |path| + 1 && r.value[..|path|] == path && At(root, r.value).name == arg)
  {
    if arg == ".." then
      if path == [] then None else
        ParentPath(root, path);
        Some(path[..|path| - 1])
    else if arg == "/" then Some([])
    else match FindChild(At(root, path).children, arg)
      case None => Some(path)
      case Some(i) =>
        ChildPath(root, path, i);
        assert (path + [i])[..|path|] == path;
        Some(path + [i])
  }

  lemma {:induction false} ParentPath(root: Directory, path: seq<nat>)
    requires path != [] && ValidPath(root, path)
    ensures ValidPath(root, path[..|path| - 1])
    decreases |path|
  {
    if |path| > 1 {
      ParentPath(root.children[path[0]], path[1..]);
      assert path[1..][..|path[1..]| - 1] == path[..|path| - 1][1..];
    }
  }

  lemma {:induction false} ChildPath(root: Directory, path: seq<nat>, i: nat)
    requires ValidPath(root, path) && i < |At(root, path).children|
    ensures ValidPath(root, path + [i]) && At(root, path + [i]) == At(root, path).children[i]
    decreases |path|
  {
    if path == [] {
      assert ([] + [i])[1..] == [];
      assert [] + [i] == [i];
    } else {
      ChildPath(root.children[path[0]], path[1..], i);
      assert (path + [i])[1..] == path[1..] + [i];
    }
  }

  /** The state of the walk: the tree built so far and the current
      directory. */
  datatype Walk = Walk(root: Directory, path: seq<nat>)

  predicate WalkValid(w: Walk) {
    ValidPath(w.root, w.path)
  }

  /** One command block: `ls` adds the output to the current directory, `cd`
      moves; a command that is neither panics. */
  function Step(w: Walk, command: string, output: string): (r: Option<Walk>)
    requires WalkValid(w)
    ensures r.Some? ==> WalkValid(r.value) && r.value.root.name == w.root.name
  {
    if |command| < 2 then None
    else if command[..2] == "ls" then
      match Ls(At(w.root, w.path), Lines(output))
      case None => None
      case Some(d) =>
        UpdateKeepsPaths(w.root, w.path, d, w.path);
        Some(Walk(UpdateAt(w.root, w.path, d), w.path))
    else if command[..2] == "cd" then
      match SplitOnce(command, ' ')
      case None => None
      case Some((_, arg)) =>
        match Cd(w.root, w.path, arg)
        case None => None
        case Some(p) => Some(Walk(w.root, p))
    else None
  }

  /** The commands of a session: the blocks after each `$ `, each split at
      its first line feed into the command and its output. */
  function Commands(input: string): (r: Option<seq<(string, string)>>)
  {
    ParseBlocks(SplitPair(input, '$', ' ')[1..])
  }

  function ParseBlocks(blocks: seq<string>): (r: Option<seq<(string, string)>>)
    ensures r.Some? ==> |r.value| == |blocks|
    ensures r.Some? ==> forall k :: 0 <= k < |blocks| ==> SplitOnce(blocks[k], '\n') == Some(r.value[k])
  {
    if blocks == [] then Some([])
    else match (SplitOnce(blocks[0], '\n'), ParseBlocks(blocks[1..]))
      case (Some(p), Some(rest)) => Some([p] + rest)
      case _ => None
  }

  /** The walk over a list of commands, from the root. */
  function Run(w: Walk, commands: seq<(string, string)>): (r: Option<Walk>)
    requires WalkValid(w)
    ensures r.Some? ==> WalkValid(r.value) && r.value.root.name == w.root.name
  {
    if commands == [] then Some(w)
    else match Run(w, commands[..|commands| - 1])
      case None => None
      case Some(v) => Step(v, commands[|commands| - 1].0, commands[|commands| - 1].1)
  }

  const EmptyRoot: Directory := Directory("/", [], [])

  /** `setup_directory_from_commands`: the tree the session leaves behind. */
  function Setup(input: string): (r: Option<Directory>)
    ensures r.Some? ==> r.value.name == "/"
  {
    match Commands(input)
    case None => None
    case Some(commands) =>
      match Run(Walk(EmptyRoot, []), commands)
      case None => None
      case Some(w) => Some(w.root)
  }

  /** `setup_directory_from_commands` as a loop over the command blocks
      that moves the current directory. */
  method SetupDirectory(input: string) returns (root: Option<Directory>)
    ensures root == Setup(input)
  {
    var commands := Commands(input);
    if commands.None? {
      return None;
    }
    var cmds := commands.value;
    var w := Walk(EmptyRoot, []);
    for k := 0 to |cmds|
      invariant WalkValid(w)
      invariant Run(Walk(EmptyRoot, []), cmds[..k]) == Some(w)
    {
      assert cmds[..k + 1][..k] == cmds[..k];
      var next := Step(w, cmds[k].0, cmds[k].1);
      if next.None? {
        RunStaysFailed(Walk(EmptyRoot, []), cmds, k + 1);
        return None;
      }
      w := next.value;
    }
    assert cmds[..|cmds|] == cmds;
    return Some(w.root);
  }

  lemma {:induction false} RunStaysFailed(w: Walk, commands: seq<(string, string)>, k: nat)
    requires WalkValid(w) && k <= |commands| && Run(w, commands[..k]).None?
    ensures Run(w, commands).None?
    decreases |commands| - k
  {
    if k < |commands| {
      assert commands[..k + 1][..k] == commands[..k];
      RunStaysFailed(w, commands, k + 1);
    } else {
      assert commands[..k] == commands;
    }
  }

  /** The sum of the file sizes a list of `ls` lines adds. */
  function LinesSize(lines: seq<string>): nat {
    if lines == [] then 0 else LinesSize(lines[..|lines| - 1]) + LineSize(lines[|lines| - 1])
  }

  /** `ls` grows the total size by exactly the sizes of the listed files. */
  lemma {:induction false} LsGrowsByListedSizes(w: Walk, output: string)
    requires WalkValid(w) && Step(w, "ls", output).Some?
    ensures Size(Step(w, "ls", output).value.root) == Size(w.root) + LinesSize(Lines(output))
  {
    var d := At(w.root, w.path);
    var r := Ls(d, Lines(output)).value;
    LsSize(d, Lines(output));
    SizeAfterUpdate(w.root, w.path, r);
  }

  lemma {:induction false} LsSize(d: Directory, lines: seq<string>)
    requires Ls(d, lines).Some?
    ensures Size(Ls(d, lines).value) == Size(d) + LinesSize(lines)
  {
    if lines != [] {
      var init := lines[..|lines| - 1];
      var e := Ls(d, init).value;
      LsSize(d, init);
      var line := lines[|lines| - 1];
      LsLineSize(e, line);
    }
  }

  lemma LsLineSize(d: Directory, line: string)
    requires LsLine(d, line).Some?
    ensures Size(LsLine(d, line).value) == Size(d) + LineSize(line)
  {
    var p := SplitOnce(line, ' ').value;
    assert line == p.0 + [' '] + p.1;
    assert p.0 + " " + p.1 == line;
    LsLineAdds(d, p.0, p.1);
  }

  /** The first part: the sum of the sizes below 100000. */
  function PartOne(input: string): (r: Option<nat>)
    ensures r.Some? <==> Setup(input).Some?
    ensures r.Some? ==> r.value == Sum(Below(AllSizes(Setup(input).value), SmallLimit))
  {
    match Setup(input)
    case None => None
    case Some(root) =>
      SumBelowIsTotal(root, SmallLimit);
      Some(SumBelow(root, SmallLimit))
  }

  /** The second part: the smallest directory above the size to free. */
  function PartTwo(root: Directory): (r: Option<nat>)
    requires Size(root) >= 40000000
    ensures r.Some? ==> r.value in AllSizes(root) && r.value > SizeToFree(root)
    ensures r.Some? ==> forall x :: x in AllSizes(root) && x > SizeToFree(root) ==> r.value <= x
    ensures r.None? ==> forall x :: x in AllSizes(root) ==> x <= SizeToFree(root)
  {
    SmallestAboveIsMinimum(root, SizeToFree(root));
    SmallestAbove(root, SizeToFree(root))
  }
}
