/** dir_tree_extractor.py: the text rendering of the machine's directory tree written
    to target_dir\dir_tree.txt, with a progress bar counting the lines. */
module DirTree {
  import opened Wrappers
  import opened SourceTree
  import opened NameOrder
  import opened Destination

  const Tee: string := "├── "
  const Elbow: string := "└── "
  const Pipe: string := "│   "
  const Blank: string := "    "

  const OutputName: string := "dir_tree.txt"

  /** The line written in place of a listing that failed. */
  function Sentinel(f: Fault): string {
    match f
    case PermissionDenied => "    [Permission Denied]"
    case FileNotFound => "    [File Not Found]"
  }

  function Connector(last: bool): string {
    if last then Elbow else Tee
  }

  function Extension(last: bool): string {
    if last then Blank else Pipe
  }

  /** list.index: the position of the first occurrence of x. */
  function IndexOf(xs: seq<string>, x: string): (k: nat)
    requires x in xs
    ensures k < |xs| && xs[k] == x && forall j :: 0 <= j < k ==> xs[j] != x
  {
    if xs[0] == x then 0 else 1 + IndexOf(xs[1..], x)
  }

  /** pointers = [contents.index(item) == len(contents) - 1 for item in contents] */
  function Pointers(cs: seq<Entry>): (ps: seq<bool>)
    ensures |ps| == |cs|
  {
    var ns := ListedNames(cs);
    seq(|cs|, i requires 0 <= i < |cs| => IndexOf(ns, ns[i]) == |cs| - 1)
  }

  // ---------------------------------------------------------------------
  // The rendering, as a function of the tree

  /** sorted(os.listdir(dir_path)): the entries of a directory in name order. */
  function Contents(n: Node): (cs: seq<Entry>)
    requires n.Dir?
    ensures multiset(cs) == multiset(n.entries) && SortedByName(cs)
    ensures forall e :: e in cs ==> e in n.entries
  {
    var cs := SortByName(n.entries);
    SortSorted(n.entries);
    assert forall e :: e in cs ==> e in n.entries by {
      forall e | e in cs ensures e in n.entries {
        assert e in multiset(cs);
      }
    }
    cs
  }

  /** The lines tree(dir_path, prefix) writes for the directory node n. */
  function Render(n: Node, prefix: string): seq<string>
    requires IsDir(n)
    decreases n, 1
  {
    match n
    case Unreadable(f) => [prefix + Sentinel(f)]
    case Dir(_) =>
      var cs := Contents(n);
      RenderItems(n, cs, Pointers(cs), |cs|, prefix)
  }

  /** The lines for the first k entries of the sorted contents cs of directory dir. */
  function RenderItems(dir: Node, cs: seq<Entry>, ps: seq<bool>, k: nat, prefix: string): seq<string>
    requires dir.Dir? && (forall e :: e in cs ==> e in dir.entries)
    requires |ps| == |cs| && k <= |cs|
    decreases dir, 0, k
  {
    if k == 0 then []
    else RenderItems(dir, cs, ps, k - 1, prefix) + EntryLines(dir, cs[k - 1], ps[k - 1], prefix)
  }

  /** One turn of the `for pointer, path in zip(pointers, contents)` loop. */
  function EntryLines(dir: Node, e: Entry, last: bool, prefix: string): seq<string>
    requires dir.Dir? && e in dir.entries
    decreases dir, 0, 0
  {
    [prefix + Connector(last) + e.name]
      + (if IsDir(e.node) then Render(e.node, prefix + Extension(last)) else [])
  }

  // ---------------------------------------------------------------------
  // What the rendering promises

  /** With the distinct names of a real listing, contents.index(item) is the item's own
      position, so `└── ` goes exactly to the last entry. */
  lemma PointerIsLast(cs: seq<Entry>, i: nat)
    requires DistinctNames(cs) && i < |cs|
    ensures Pointers(cs)[i] <==> i == |cs| - 1
  {
    var ns := ListedNames(cs);
    var k := IndexOf(ns, ns[i]);
    assert cs[k].name == ns[k] && cs[i].name == ns[i];
  }

  /** Entries are rendered in sorted name order, so the order in which os.listdir
      happens to return them makes no difference. */
  lemma RenderIgnoresListingOrder(e1: seq<Entry>, e2: seq<Entry>, prefix: string)
    requires DistinctNames(e1) && DistinctNames(e2)
    requires multiset(e1) == multiset(e2)
    ensures Render(Dir(e1), prefix) == Render(Dir(e2), prefix)
  {
    SortIgnoresListingOrder(e1, e2);
    var cs := Contents(Dir(e1));
    assert cs == Contents(Dir(e2));
    RenderItemsSameEntries(Dir(e1), Dir(e2), cs, Pointers(cs), |cs|, prefix);
  }

  /** RenderItems does not depend on which directory node vouches for termination. */
  lemma {:induction false} RenderItemsSameEntries(d1: Node, d2: Node, cs: seq<Entry>, ps: seq<bool>, k: nat, prefix: string)
    requires d1.Dir? && (forall e :: e in cs ==> e in d1.entries)
    requires d2.Dir? && (forall e :: e in cs ==> e in d2.entries)
    requires |ps| == |cs| && k <= |cs|
    ensures RenderItems(d1, cs, ps, k, prefix) == RenderItems(d2, cs, ps, k, prefix)
    decreases k
  {
    if k > 0 {
      RenderItemsSameEntries(d1, d2, cs, ps, k - 1, prefix);
    }
  }

  /** Every line starts with the prefix of its level, followed by a connector, an
      extension or a sentinel: at least four more characters. */
  lemma {:induction false} RenderPrefixed(n: Node, prefix: string)
    requires IsDir(n)
    ensures forall line :: line in Render(n, prefix) ==> |prefix| + 4 <= |line| && line[..|prefix|] == prefix
    decreases n, 1
  {
    if n.Dir? {
      var cs := Contents(n);
      ItemsPrefixed(n, cs, Pointers(cs), |cs|, prefix);
    }
  }

  lemma {:induction false} ItemsPrefixed(dir: Node, cs: seq<Entry>, ps: seq<bool>, k: nat, prefix: string)
    requires dir.Dir? && (forall e :: e in cs ==> e in dir.entries)
    requires |ps| == |cs| && k <= |cs|
    ensures forall line :: line in RenderItems(dir, cs, ps, k, prefix) ==> |prefix| + 4 <= |line| && line[..|prefix|] == prefix
    decreases dir, 0, k
  {
    if k > 0 {
      ItemsPrefixed(dir, cs, ps, k - 1, prefix);
      EntryPrefixed(dir, cs[k - 1], ps[k - 1], prefix);
    }
  }

  lemma {:induction false} EntryPrefixed(dir: Node, e: Entry, last: bool, prefix: string)
    requires dir.Dir? && e in dir.entries
    ensures forall line :: line in EntryLines(dir, e, last, prefix) ==> |prefix| + 4 <= |line| && line[..|prefix|] == prefix
    decreases dir, 0, 0
  {
    var ext := prefix + Extension(last);
    assert (prefix + Connector(last) + e.name)[..|prefix|] == prefix;
    if IsDir(e.node) {
      RenderPrefixed(e.node, ext);
      forall line | line in Render(e.node, ext) ensures line[..|prefix|] == prefix {
        PrefixOfPrefix(line, ext, prefix);
      }
    }
  }

  lemma PrefixOfPrefix(line: string, ext: string, prefix: string)
    requires |ext| <= |line| && line[..|ext|] == ext
    requires |prefix| <= |ext| && ext[..|prefix|] == prefix
    ensures line[..|prefix|] == prefix
  {
    assert line[..|prefix|] == line[..|ext|][..|prefix|];
  }

  // ---------------------------------------------------------------------
  // How many lines

  /** The lines a directory node renders to, counted on its listing as os.listdir
      returns it: one per entry, plus what each subdirectory renders to; a directory
      that cannot be listed is its one sentinel line. */
  function Count(n: Node): nat
    decreases n
  {
    match n
    case Dir(es) => CountItems(es)
    case Unreadable(_) => 1
    case File(_, _, _, _) => 0
  }

  function CountItems(es: seq<Entry>): nat
    decreases es
  {
    if es == [] then 0 else ItemCount(es[0]) + CountItems(es[1..])
  }

  function ItemCount(e: Entry): nat
    decreases e
  {
    1 + (if IsDir(e.node) then Count(e.node) else 0)
  }

  lemma {:induction false} CountInsert(e: Entry, s: seq<Entry>)
    ensures CountItems(Insert(e, s)) == ItemCount(e) + CountItems(s)
    decreases |s|
  {
    if s != [] && !NotAbove(e.name, s[0].name) {
      CountInsert(e, s[1..]);
      assert Insert(e, s)[1..] == Insert(e, s[1..]);
    }
  }

  /** Sorting does not change the count. */
  lemma {:induction false} CountSorted(es: seq<Entry>)
    ensures CountItems(SortByName(es)) == CountItems(es)
    decreases |es|
  {
    if es != [] {
      CountSorted(es[1..]);
      CountInsert(es[0], SortByName(es[1..]));
    }
  }

  lemma CountPermuted(es: seq<Entry>, cs: seq<Entry>)
    requires cs == SortByName(es)
    ensures CountItems(cs) == CountItems(es)
  {
    CountSorted(es);
  }

  lemma {:induction false} CountSnoc(a: seq<Entry>, e: Entry)
    ensures CountItems(a + [e]) == CountItems(a) + ItemCount(e)
    decreases |a|
  {
    if a != [] {
      assert (a + [e])[1..] == a[1..] + [e];
      CountSnoc(a[1..], e);
    } else {
      assert ([e])[1..] == [];
    }
  }

  /** Exactly one line per listed entry, at every level, plus one sentinel line per
      directory that cannot be listed. */
  lemma {:induction false} RenderCount(n: Node, prefix: string)
    requires IsDir(n)
    ensures |Render(n, prefix)| == Count(n)
    decreases n, 1
  {
    if n.Dir? {
      var cs := Contents(n);
      ItemsCount(n, cs, Pointers(cs), |cs|, prefix);
      assert cs[..|cs|] == cs;
      CountPermuted(n.entries, cs);
    }
  }

  lemma {:induction false} ItemsCount(dir: Node, cs: seq<Entry>, ps: seq<bool>, k: nat, prefix: string)
    requires dir.Dir? && (forall e :: e in cs ==> e in dir.entries)
    requires |ps| == |cs| && k <= |cs|
    ensures |RenderItems(dir, cs, ps, k, prefix)| == CountItems(cs[..k])
    decreases dir, 0, k
  {
    if k == 0 {
      assert cs[..0] == [];
    } else {
      ItemsCount(dir, cs, ps, k - 1, prefix);
      var e := cs[k - 1];
      assert e in dir.entries;
      EntryCount(dir, e, ps[k - 1], prefix);
      assert cs[..k] == cs[..k - 1] + [e];
      CountSnoc(cs[..k - 1], e);
    }
  }

  /** One entry writes its own line and, for a directory, the lines of its subtree. */
  lemma EntryCount(dir: Node, e: Entry, last: bool, prefix: string)
    requires dir.Dir? && e in dir.entries
    ensures |EntryLines(dir, e, last, prefix)| == ItemCount(e)
    decreases dir, 0, 0
  {
    if IsDir(e.node) {
      RenderCount(e.node, prefix + Extension(last));
    }
  }

  // ---------------------------------------------------------------------
  // generate_dir_tree and extract_dir_tree as functions of the drive

  /** What os.listdir(start_path) meets: a missing path fails like one that cannot be
      listed for lack of the file. */
  function NodeAt(machine: Node, start: Path): Node {
    match Find(machine, start)
    case None => Unreadable(FileNotFound)
    case Some(n) => n
  }

  /** generate_dir_tree(start_path, output_file): the drive afterwards, and the error its
      handler caught and logged (Pass when none). A start path that is a file makes
      os.listdir raise NotADirectoryError, which tree() does not catch, before any
      line is written. */
  function DirTreeOn(machine: Node, start: Path, disk: Disk, output: Path): Effect {
    var n := NodeAt(machine, start);
    var op := OpenOn(disk, output, Text([]));
    if op.out.Raised? then op
    else if n.File? then Effect(op.disk, Raised(NotADirectoryError))
    else Effect(op.disk[output := Text(Render(n, ""))], Pass)
  }

  /** extract_dir_tree(target_dir): the drive afterwards, and the exception that leaves
      it (only os.makedirs can raise; generate_dir_tree catches its own). */
  function ExtractOn(machine: Node, disk: Disk, target: Path): Effect {
    var mk := EnsureDirOn(disk, target);
    if mk.out.Raised? then mk
    else Effect(DirTreeOn(machine, [], mk.disk, target + [OutputName]).disk, Pass)
  }

  /** The output file holds the rendering of the whole machine, from its root's
      entries with an empty prefix, and one line per entry or sentinel. */
  lemma ExtractWrites(machine: Node, disk: Disk, target: Path)
    requires IsDir(machine)
    requires forall q :: q <= target && q in disk ==> disk[q].Folder?
    requires !IsFolder(disk, target + [OutputName])
    ensures var e := ExtractOn(machine, disk, target);
      && e.out == Pass
      && target + [OutputName] in e.disk
      && e.disk[target + [OutputName]] == Text(Render(machine, ""))
      && |e.disk[target + [OutputName]].lines| == Count(machine)
  {
    var output := target + [OutputName];
    MakeDirsPass(disk, target);
    MakeDirsOnlyAdds(disk, target);
    assert DirName(output) == target;
    assert target <= target;
    assert !(output <= target);
    var mk := EnsureDirOn(disk, target);
    assert mk.out == Pass && IsFolder(mk.disk, target) && !IsFolder(mk.disk, output);
    RenderCount(machine, "");
  }

  // ---------------------------------------------------------------------
  // The procedures

  /** The open output file f. */
  class TextWriter {
    var lines: seq<string>

    constructor ()
      ensures lines == []
    {
      lines := [];
    }

    /** f.write(line + '\n') */
    method Write(line: string)
      modifies this
      ensures lines == old(lines) + [line]
    {
      lines := lines + [line];
    }
  }

  /** The tqdm progress bar: its total and the count n it has reached. */
  class ProgressBar {
    const total: nat
    var n: nat

    constructor (total: nat)
      ensures this.total == total && n == 0
    {
      this.total := total;
      n := 0;
    }

    /** progress_bar.update(1) */
    method Update()
      modifies this
      ensures n == old(n) + 1
    {
      n := n + 1;
    }
  }

  /** tree(dir_path, prefix) on the directory node n: writes Render(n, prefix) to f and
      advances the bar once per line written. */
  method Tree(n: Node, prefix: string, f: TextWriter, bar: ProgressBar)
    requires IsDir(n)
    modifies f, bar
    ensures f.lines == old(f.lines) + Render(n, prefix)
    ensures bar.n == old(bar.n) + |Render(n, prefix)|
    decreases n, 2
  {
    match n {
      case Unreadable(fault) =>
        f.Write(prefix + Sentinel(fault));
        bar.Update();
      case Dir(_) =>
        TreeItems(n, prefix, f, bar);
    }
  }

  /** The loop of tree() over the sorted contents of a directory that could be listed. */
  method TreeItems(n: Node, prefix: string, f: TextWriter, bar: ProgressBar)
    requires n.Dir?
    modifies f, bar
    ensures f.lines == old(f.lines) + Render(n, prefix)
    ensures bar.n == old(bar.n) + |Render(n, prefix)|
    decreases n, 1
  {
    var contents := Contents(n);
    var pointers := Pointers(contents);
    var i := 0;
    while i < |contents|
      invariant 0 <= i <= |contents|
      invariant f.lines == old(f.lines) + RenderItems(n, contents, pointers, i, prefix)
      invariant bar.n == old(bar.n) + |RenderItems(n, contents, pointers, i, prefix)|
    {
      assert contents[i] in n.entries;
      TreeEntry(n, contents[i], pointers[i], prefix, f, bar);
      Associative(old(f.lines), RenderItems(n, contents, pointers, i, prefix), EntryLines(n, contents[i], pointers[i], prefix));
      i := i + 1;
    }
    assert Render(n, prefix) == RenderItems(n, contents, pointers, |contents|, prefix);
  }

  /** One turn of the loop in tree(): the entry's line, then, for a directory, its
      subtree one level deeper. */
  method TreeEntry(dir: Node, item: Entry, last: bool, prefix: string, f: TextWriter, bar: ProgressBar)
    requires dir.Dir? && item in dir.entries
    modifies f, bar
    ensures f.lines == old(f.lines) + EntryLines(dir, item, last, prefix)
    ensures bar.n == old(bar.n) + |EntryLines(dir, item, last, prefix)|
    decreases dir, 0
  {
    f.Write(prefix + Connector(last) + item.name);
    if IsDir(item.node) {
      Tree(item.node, prefix + Extension(last), f, bar);
    }
    bar.Update();
  }

  /** sum([len(files) + len(dirs) for _, dirs, files in os.walk(start_path)]) */
  function WalkEntryCount(steps: seq<WalkStep>): nat {
    if steps == [] then 0
    else WalkEntryCount(steps[..|steps| - 1]) + |steps[|steps| - 1].files| + |steps[|steps| - 1].dirs|
  }

  method TotalEntries(steps: seq<WalkStep>) returns (total: nat)
    ensures total == WalkEntryCount(steps)
  {
    total := 0;
    var i := 0;
    while i < |steps|
      invariant 0 <= i <= |steps|
      invariant total == WalkEntryCount(steps[..i])
    {
      assert steps[..i + 1][..i] == steps[..i];
      total := total + |steps[i].files| + |steps[i].dirs|;
      i := i + 1;
    }
    assert steps[..i] == steps;
  }

  /** generate_dir_tree(start_path, output_file): returns the error its handler caught
      (Pass when none) and the bar it drove. */
  method GenerateDirTree(machine: Node, start: Path, output: Path, vol: Volume)
    returns (caught: Outcome, bar: ProgressBar)
    modifies vol
    ensures Effect(vol.disk, caught) == DirTreeOn(machine, start, old(vol.disk), output)
    ensures bar.total == WalkEntryCount(Walk(NodeAt(machine, start), start))
    ensures caught == Pass ==> bar.n == |Render(NodeAt(machine, start), "")|
  {
    var n := NodeAt(machine, start);
    var total := TotalEntries(Walk(n, start));
    bar := new ProgressBar(total);
    caught := vol.Open(output, Text([]));
    if caught.Raised? {
      return;
    }
    ghost var op := vol.disk;
    var f := new TextWriter();
    if n.File? {
      caught := Raised(NotADirectoryError);
      return;
    }
    Tree(n, "", f, bar);
    assert vol.disk == op && f.lines == Render(n, "");
    vol.Close(output, Text(f.lines));
  }

  /** extract_dir_tree(target_dir): os.makedirs may raise to the caller; everything
      generate_dir_tree meets is caught there. */
  method ExtractDirTree(machine: Node, target: Path, vol: Volume) returns (out: Outcome)
    modifies vol
    ensures Effect(vol.disk, out) == ExtractOn(machine, old(vol.disk), target)
  {
    out := vol.EnsureDir(target);
    if out.Raised? {
      return;
    }
    var caught, bar := GenerateDirTree(machine, [], target + [OutputName], vol);
  }
}
