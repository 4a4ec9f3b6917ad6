/** The examined machine as an immutable tree: what os.listdir, os.walk,
    os.path.exists and os.path.isdir observe on the source side. */
module SourceTree {
  import opened Wrappers

  /** A path as its components below the drive root: C:\BET\Logs is ["BET", "Logs"]. */
  type Path = seq<string>

  /** Why listing a directory fails. */
  datatype Fault = PermissionDenied | FileNotFound

  datatype Node =
    | File(data: seq<bv8>, ctime: int, atime: int, readable: bool)
    | Dir(entries: seq<Entry>)    // the entries in the order os.listdir returns them
    | Unreadable(fault: Fault)    // a directory whose listing fails

  datatype Entry = Entry(name: string, node: Node)

  /** os.path.isdir: directories are directories even when they cannot be listed. */
  predicate IsDir(n: Node) {
    !n.File?
  }

  /** The names os.listdir returns, in its order. */
  function ListedNames(es: seq<Entry>): (ns: seq<string>)
    ensures |ns| == |es| && forall i :: 0 <= i < |es| ==> ns[i] == es[i].name
  {
    seq(|es|, i requires 0 <= i < |es| => es[i].name)
  }

  predicate DistinctNames(es: seq<Entry>) {
    forall i, j :: 0 <= i < j < |es| ==> es[i].name != es[j].name
  }

  /** A real file system never lists two entries of one directory under the same name. */
  predicate WellFormed(n: Node) {
    match n
    case Dir(es) => DistinctNames(es) && forall i :: 0 <= i < |es| ==> WellFormed(es[i].node)
    case _ => true
  }

  function Last(p: Path): string
    requires |p| > 0
  {
    p[|p| - 1]
  }

  /** The node an entry of that name denotes (the first, as a lookup by name finds it). */
  function Lookup(es: seq<Entry>, name: string): (r: Option<Node>)
    ensures r.Some? <==> exists i :: 0 <= i < |es| && es[i].name == name
    ensures r.Some? ==> exists i :: 0 <= i < |es| && es[i] == Entry(name, r.value)
  {
    if es == [] then None
    else if es[0].name == name then Some(es[0].node)
    else
      var r := Lookup(es[1..], name);
      assert forall i :: 1 <= i < |es| ==> es[i] == es[1..][i - 1];
      r
  }

  /** The node at path p below n; paths below a file or an unlistable directory do not resolve. */
  function Find(n: Node, p: Path): Option<Node>
    decreases |p|
  {
    if p == [] then Some(n)
    else match n
      case Dir(es) =>
        (match Lookup(es, p[0])
         case None => None
         case Some(c) => Find(c, p[1..]))
      case _ => None
  }

  /** The exception os.listdir raises on a directory it cannot list. */
  function ListingError(f: Fault): Error {
    match f
    case PermissionDenied => PermissionError
    case FileNotFound => FileNotFoundError
  }

  /** os.path.exists */
  predicate Exists(root: Node, p: Path) {
    Find(root, p).Some?
  }

  /** Every subtree of a well-formed tree is well formed. */
  lemma {:induction false} FindWellFormed(n: Node, p: Path)
    requires WellFormed(n) && Find(n, p).Some?
    ensures WellFormed(Find(n, p).value)
    decreases |p|
  {
    if p != [] {
      var c := Lookup(n.entries, p[0]).value;
      var i :| 0 <= i < |n.entries| && n.entries[i] == Entry(p[0], c);
      FindWellFormed(c, p[1..]);
    }
  }

  // ---------------------------------------------------------------------
  // os.walk (top-down, errors ignored)

  /** One triple (root, dirs, files) yielded by os.walk; files keep their nodes. */
  datatype WalkStep = WalkStep(root: Path, dirs: seq<string>, files: seq<Entry>)

  function SubdirNames(es: seq<Entry>): seq<string> {
    if es == [] then []
    else (if IsDir(es[0].node) then [es[0].name] else []) + SubdirNames(es[1..])
  }

  function FileEntries(es: seq<Entry>): (r: seq<Entry>)
    ensures forall e :: e in r ==> e in es && e.node.File?
  {
    if es == [] then []
    else (if IsDir(es[0].node) then [] else [es[0]]) + FileEntries(es[1..])
  }

  /** os.walk(at) on node n: a listable directory yields its own triple, then walks its
      subdirectories in listing order; anything else yields nothing. */
  function Walk(n: Node, at: Path): seq<WalkStep>
    decreases n
  {
    match n
    case Dir(es) => [WalkStep(at, SubdirNames(es), FileEntries(es))] + WalkEntries(es, at)
    case _ => []
  }

  function WalkEntries(es: seq<Entry>, at: Path): seq<WalkStep>
    decreases es
  {
    if es == [] then []
    else
      (if IsDir(es[0].node) then Walk(es[0].node, at + [es[0].name]) else [])
      + WalkEntries(es[1..], at)
  }

  /** A file met on a walk: its full path and its node. */
  datatype Found = Found(path: Path, file: Node)

  /** os.path.join(root, name) for every file of one walk triple. */
  function InDir(root: Path, es: seq<Entry>): (r: seq<Found>)
    ensures |r| == |es|
    ensures forall i :: 0 <= i < |es| ==> r[i] == Found(root + [es[i].name], es[i].node)
  {
    seq(|es|, i requires 0 <= i < |es| => Found(root + [es[i].name], es[i].node))
  }

  /** The files of a walk in the order the nested `for` loops visit them. */
  function WalkFiles(steps: seq<WalkStep>): seq<Found> {
    if steps == [] then []
    else WalkFiles(steps[..|steps| - 1]) + InDir(steps[|steps| - 1].root, steps[|steps| - 1].files)
  }

  /** Every triple of the walk has its root at or below `at`, and lists files only. */
  predicate StepsBelow(steps: seq<WalkStep>, at: Path) {
    forall s :: s in steps ==> at <= s.root && forall e :: e in s.files ==> e.node.File?
  }

  lemma {:induction false} WalkBelow(n: Node, at: Path)
    ensures StepsBelow(Walk(n, at), at)
    decreases n, 1
  {
    if n.Dir? {
      WalkEntriesBelow(n.entries, at, n);
    }
  }

  lemma {:induction false} WalkEntriesBelow(es: seq<Entry>, at: Path, parent: Node)
    requires parent.Dir? && forall e :: e in es ==> e in parent.entries
    ensures StepsBelow(WalkEntries(es, at), at)
    decreases parent, 0, |es|
  {
    if es != [] {
      assert es[0] in parent.entries;
      if IsDir(es[0].node) {
        WalkBelow(es[0].node, at + [es[0].name]);
      }
      WalkEntriesBelow(es[1..], at, parent);
    }
  }

  /** The files of a walk below `at` lie strictly below it. */
  lemma {:induction false} WalkFilesBelow(steps: seq<WalkStep>, at: Path)
    requires StepsBelow(steps, at)
    ensures forall f :: f in WalkFiles(steps) ==> at < f.path && f.file.File?
  {
    if steps != [] {
      var s := steps[|steps| - 1];
      WalkFilesBelow(steps[..|steps| - 1], at);
      forall f | f in InDir(s.root, s.files) ensures at < f.path && f.file.File? {
        var k :| 0 <= k < |s.files| && InDir(s.root, s.files)[k] == f;
        assert s.files[k] in s.files;
      }
    }
  }

  lemma InDirAppend(root: Path, a: seq<Entry>, b: seq<Entry>)
    ensures InDir(root, a + b) == InDir(root, a) + InDir(root, b)
  {
  }

  /** The files the nested `for root, dirs, files in os.walk(...)` / `for file_name in
      files` loops have reached at file j of triple i. */
  function Visited(steps: seq<WalkStep>, i: nat, j: nat): seq<Found>
    requires i < |steps| && j <= |steps[i].files|
  {
    WalkFiles(steps[..i]) + InDir(steps[i].root, steps[i].files[..j])
  }

  lemma VisitedStart(steps: seq<WalkStep>, i: nat)
    requires i < |steps|
    ensures Visited(steps, i, 0) == WalkFiles(steps[..i])
  {
    assert steps[i].files[..0] == [];
  }

  lemma VisitedNext(steps: seq<WalkStep>, i: nat, j: nat)
    requires i < |steps| && j < |steps[i].files|
    ensures Visited(steps, i, j + 1)
         == Visited(steps, i, j) + [Found(steps[i].root + [steps[i].files[j].name], steps[i].files[j].node)]
  {
    var s := steps[i];
    assert s.files[..j + 1] == s.files[..j] + [s.files[j]];
    InDirAppend(s.root, s.files[..j], [s.files[j]]);
  }

  lemma VisitedEnd(steps: seq<WalkStep>, i: nat)
    requires i < |steps|
    ensures Visited(steps, i, |steps[i].files|) == WalkFiles(steps[..i + 1])
  {
    assert steps[..i + 1][..i] == steps[..i];
    assert steps[i].files[..|steps[i].files|] == steps[i].files;
  }

  /** The files of a walk are those the loops have visited, then the rest. */
  lemma WalkFilesSplit(steps: seq<WalkStep>, i: nat, j: nat)
    requires i < |steps| && j <= |steps[i].files|
    ensures WalkFiles(steps)
         == Visited(steps, i, j) + (InDir(steps[i].root, steps[i].files[j..]) + WalkFiles(steps[i + 1..]))
  {
    var s := steps[i];
    assert steps == steps[..i] + [s] + steps[i + 1..];
    WalkFilesAppend(steps[..i] + [s], steps[i + 1..]);
    WalkFilesAppend(steps[..i], [s]);
    assert WalkFiles([s]) == InDir(s.root, s.files) by {
      assert [s][..0] == [];
    }
    assert s.files == s.files[..j] + s.files[j..];
    InDirAppend(s.root, s.files[..j], s.files[j..]);
    var a, b1, b2, w := WalkFiles(steps[..i]), InDir(s.root, s.files[..j]), InDir(s.root, s.files[j..]), WalkFiles(steps[i + 1..]);
    assert WalkFiles(steps) == (a + (b1 + b2)) + w;
    Associative(a, b1, b2);
    Associative(a + b1, b2, w);
  }

  /** Concatenation is associative; stated once so that proofs can name the step. */
  lemma Associative<T>(a: seq<T>, b: seq<T>, c: seq<T>)
    ensures (a + b) + c == a + (b + c)
  {
  }

  // ---------------------------------------------------------------------
  // Where the files of a walk lie

  /** Neither path is a prefix of the other: they name different files, and neither
      lies inside the other. */
  predicate Apart(p: Path, q: Path) {
    !(p <= q) && !(q <= p)
  }

  /** No two files of fs lie on one branch of the tree. */
  predicate Spread(fs: seq<Found>) {
    forall i, j :: 0 <= i < j < |fs| ==> Apart(fs[i].path, fs[j].path)
  }

  function DirNameSet(es: seq<Entry>): set<string> {
    set i | 0 <= i < |es| && IsDir(es[i].node) :: es[i].name
  }

  lemma WalkFilesAppend(a: seq<WalkStep>, b: seq<WalkStep>)
    ensures WalkFiles(a + b) == WalkFiles(a) + WalkFiles(b)
    decreases |b|
  {
    if b != [] {
      assert (a + b)[..|a + b| - 1] == a + b[..|b| - 1];
      assert (a + b)[|a + b| - 1] == b[|b| - 1];
      WalkFilesAppend(a, b[..|b| - 1]);
    } else {
      assert a + b == a;
    }
  }

  lemma ApartAt(p: Path, q: Path, k: nat)
    requires k < |p| && k < |q| && p[k] != q[k]
    ensures Apart(p, q)
  {
  }

  lemma SpreadConcat(a: seq<Found>, b: seq<Found>)
    requires Spread(a) && Spread(b)
    requires forall x, y :: x in a && y in b ==> Apart(x.path, y.path)
    ensures Spread(a + b)
  {
    forall i, j | 0 <= i < j < |a + b| ensures Apart((a + b)[i].path, (a + b)[j].path) {
      if j < |a| {
      } else if i >= |a| {
        assert (a + b)[i] == b[i - |a|] && (a + b)[j] == b[j - |a|];
      } else {
        assert (a + b)[i] in a && (a + b)[j] in b;
      }
    }
  }

  lemma {:induction false} FileEntriesDistinct(es: seq<Entry>)
    requires DistinctNames(es)
    ensures DistinctNames(FileEntries(es))
  {
    if es != [] {
      FileEntriesDistinct(es[1..]);
      var rest := FileEntries(es[1..]);
      forall e | e in rest ensures e.name != es[0].name {
        var k :| 0 <= k < |es[1..]| && es[1..][k] == e;
        assert es[k + 1] == e;
      }
    }
  }

  /** The files of one directory level lie apart, just below `at`. */
  lemma TopFilesSpread(es: seq<Entry>, at: Path)
    requires DistinctNames(es)
    ensures var fs := InDir(at, FileEntries(es));
      Spread(fs) && forall f :: f in fs ==> at < f.path && |f.path| == |at| + 1 && f.file.File?
  {
    var top := FileEntries(es);
    FileEntriesDistinct(es);
    var fs := InDir(at, top);
    forall i, j | 0 <= i < j < |fs| ensures Apart(fs[i].path, fs[j].path) {
      ApartAt(fs[i].path, fs[j].path, |at|);
    }
    forall f | f in fs ensures at < f.path && |f.path| == |at| + 1 && f.file.File? {
      var k :| 0 <= k < |fs| && fs[k] == f;
      assert top[k] in top;
      assert f.path == at + [top[k].name];
    }
  }

  /** os.walk visits every file of a well-formed tree at a path of its own below `at`,
      and no file's path lies inside another's. */
  lemma {:induction false} WalkSpread(n: Node, at: Path)
    requires WellFormed(n)
    ensures var fs := WalkFiles(Walk(n, at));
      Spread(fs) && forall f :: f in fs ==> at < f.path && f.file.File?
    decreases n
  {
    if n.Dir? {
      var es := n.entries;
      var step := WalkStep(at, SubdirNames(es), FileEntries(es));
      WalkFilesAppend([step], WalkEntries(es, at));
      assert WalkFiles([step]) == InDir(at, FileEntries(es)) by {
        assert [step][..0] == [];
      }
      var top := InDir(at, FileEntries(es));
      var deep := WalkFiles(WalkEntries(es, at));
      TopFilesSpread(es, at);
      WalkEntriesSpread(es, at);
      TopApartFromDeep(es, at);
      SpreadConcat(top, deep);
    }
  }

  lemma TopApartFromDeep(es: seq<Entry>, at: Path)
    requires DistinctNames(es)
    requires forall f :: f in WalkFiles(WalkEntries(es, at)) ==>
      |f.path| > |at| + 1 && f.path[|at|] in DirNameSet(es)
    ensures forall x, y :: x in InDir(at, FileEntries(es)) && y in WalkFiles(WalkEntries(es, at)) ==>
      Apart(x.path, y.path)
  {
    var top := InDir(at, FileEntries(es));
    forall x, y | x in top && y in WalkFiles(WalkEntries(es, at)) ensures Apart(x.path, y.path) {
      var k :| 0 <= k < |top| && top[k] == x;
      var e := FileEntries(es)[k];
      assert e in FileEntries(es);
      assert x.path == at + [e.name];
      var i :| 0 <= i < |es| && es[i] == e;
      var j :| 0 <= j < |es| && IsDir(es[j].node) && es[j].name == y.path[|at|];
      assert i != j;
      ApartAt(x.path, y.path, |at|);
    }
  }

  lemma {:induction false} WalkEntriesSpread(es: seq<Entry>, at: Path)
    requires DistinctNames(es)
    requires forall i :: 0 <= i < |es| ==> WellFormed(es[i].node)
    ensures var fs := WalkFiles(WalkEntries(es, at));
      && Spread(fs)
      && forall f :: f in fs ==>
           at < f.path && |f.path| > |at| + 1 && f.file.File? && f.path[|at|] in DirNameSet(es)
    decreases es
  {
    if es != [] {
      var e := es[0];
      var head := if IsDir(e.node) then Walk(e.node, at + [e.name]) else [];
      WalkFilesAppend(head, WalkEntries(es[1..], at));
      var a := WalkFiles(head);
      var b := WalkFiles(WalkEntries(es[1..], at));
      assert DistinctNames(es[1..]) by {
        forall i, j | 0 <= i < j < |es[1..]| ensures es[1..][i].name != es[1..][j].name {
          assert es[1..][i] == es[i + 1] && es[1..][j] == es[j + 1];
        }
      }
      WalkEntriesSpread(es[1..], at);
      forall x | x in DirNameSet(es[1..]) ensures x in DirNameSet(es) && x != e.name {
        var i :| 0 <= i < |es[1..]| && IsDir(es[1..][i].node) && es[1..][i].name == x;
        assert es[i + 1] == es[1..][i];
      }
      if IsDir(e.node) {
        WalkSpread(e.node, at + [e.name]);
        forall f | f in a ensures |f.path| > |at| + 1 && f.path[|at|] == e.name && f.path[|at|] in DirNameSet(es) {
          assert f.path[..|at| + 1] == at + [e.name];
          assert f.path[|at|] == f.path[..|at| + 1][|at|];
        }
      } else {
        assert a == [] by {
          assert head == [];
        }
      }
      forall x, y | x in a && y in b ensures Apart(x.path, y.path) {
        ApartAt(x.path, y.path, |at|);
      }
      SpreadConcat(a, b);
    }
  }
}
