/** The investigator's drive the collectors write to, and the library calls that
    change it: os.makedirs, open(..., 'w'), shutil.copy2, shutil.make_archive, shutil.rmtree. */
module Destination {
  import opened Wrappers
  import opened SourceTree
  import opened Manifest

  /** What a path on the destination holds. */
  datatype Obj =
    | Folder
    | Copied(data: seq<bv8>)          // a file written by shutil.copy2
    | Csv(rows: seq<Row>)             // a manifest written through csv.writer
    | Text(lines: seq<string>)        // a text file written line by line
    | Zip(members: map<Path, Obj>)    // an archive, its members keyed by their path inside it

  /** Every existing path below the drive root (the root itself always exists). */
  type Disk = map<Path, Obj>

  /** The disk after a call, and whether the call raised. */
  datatype Effect = Effect(disk: Disk, out: Outcome)

  /** os.path.isdir */
  predicate IsFolder(disk: Disk, p: Path) {
    p == [] || (p in disk && disk[p].Folder?)
  }

  /** os.path.exists */
  predicate Present(disk: Disk, p: Path) {
    p == [] || p in disk
  }

  function DirName(p: Path): Path
    requires |p| > 0
  {
    p[..|p| - 1]
  }

  /** os.makedirs(p, exist_ok=True): creates the missing directories on the way to p,
      top-down. When p itself exists as something else, mkdir's FileExistsError is
      re-raised; when a folder on the way exists as a file, mkdir below it raises
      FileNotFoundError (the Windows error for a path through a file). */
  function MakeDirsOn(disk: Disk, p: Path): Effect
    decreases |p|
  {
    if p == [] then Effect(disk, Pass)
    else
      var up := MakeDirsOn(disk, DirName(p));
      if up.out.Raised? then Effect(up.disk, Raised(FileNotFoundError))
      else if p !in up.disk then Effect(up.disk[p := Folder], Pass)
      else if up.disk[p].Folder? then up
      else Effect(up.disk, Raised(FileExistsError))
  }

  /** `if not os.path.exists(p): os.makedirs(p)` */
  function EnsureDirOn(disk: Disk, p: Path): Effect {
    if Present(disk, p) then Effect(disk, Pass) else MakeDirsOn(disk, p)
  }

  /** shutil.copy2(src, dst) for the source node n at path src: a destination that is a
      directory receives the file under its base name; the source must be a readable
      file and the target's parent a directory. Timestamps are not modelled. */
  function Copy2On(disk: Disk, src: Path, n: Node, dst: Path): Effect
    requires |src| > 0
  {
    var d := if IsFolder(disk, dst) then dst + [Last(src)] else dst;
    if !n.File? || !n.readable then Effect(disk, Raised(PermissionError))
    else if !IsFolder(disk, DirName(d)) then Effect(disk, Raised(FileNotFoundError))
    else if IsFolder(disk, d) then Effect(disk, Raised(PermissionError))
    else Effect(disk[d := Copied(n.data)], Pass)
  }

  /** open(p, 'w') creating the file with initial content `blank`. */
  function OpenOn(disk: Disk, p: Path, blank: Obj): Effect {
    if IsFolder(disk, p) then Effect(disk, Raised(PermissionError))
    else if !IsFolder(disk, DirName(p)) then Effect(disk, Raised(FileNotFoundError))
    else Effect(disk[p := blank], Pass)
  }

  /** shutil.rmtree(p): p and everything below it disappear. */
  function RmTreeOn(disk: Disk, p: Path): (d: Disk)
    ensures forall q :: q in d <==> q in disk && !(p <= q)
    ensures forall q :: q in d ==> d[q] == disk[q]
  {
    map q | q in disk && !(p <= q) :: disk[q]
  }

  /** The contents of directory root, keyed by their path relative to it. */
  function Snapshot(disk: Disk, root: Path): (z: map<Path, Obj>)
    ensures forall r :: r in z <==> r != [] && root + r in disk
    ensures forall r :: r in z ==> z[r] == disk[root + r]
  {
    var keys := set q | q in disk && root < q :: q[|root|..];
    assert forall r :: r in keys ==> root + r in disk by {
      forall r | r in keys ensures root + r in disk {
        var q :| q in disk && root < q && r == q[|root|..];
        assert root + r == q;
      }
    }
    assert forall r :: r != [] && root + r in disk ==> r in keys by {
      forall r | r != [] && root + r in disk ensures r in keys {
        var q := root + r;
        assert root < q && q[|root|..] == r;
      }
    }
    map r | r in keys :: disk[root + r]
  }

  /** The file shutil.make_archive(base, 'zip', ...) writes: base + ".zip". */
  function ZipPath(base: Path): Path
    requires |base| > 0
  {
    DirName(base) + [Last(base) + ".zip"]
  }

  /** shutil.make_archive(base, 'zip', root): root must be a directory; the archive's
      directory is created when missing; `fails` says the archive cannot be written. */
  function MakeArchiveOn(disk: Disk, base: Path, root: Path, fails: bool): Effect
    requires |base| > 0
  {
    var zip := ZipPath(base);
    if !IsFolder(disk, root) then
      Effect(disk, Raised(if Present(disk, root) then NotADirectoryError else FileNotFoundError))
    else
      var mk := EnsureDirOn(disk, DirName(zip));
      if mk.out.Raised? then mk
      else if IsFolder(mk.disk, zip) then Effect(mk.disk, Raised(PermissionError))
      else if fails then Effect(mk.disk, Raised(ArchiveError))
      else Effect(mk.disk[zip := Zip(Snapshot(mk.disk, root))], Pass)
  }

  /** os.makedirs never alters what already exists: it only adds directories, each of
      them a prefix of the requested path. */
  lemma {:induction false} MakeDirsOnlyAdds(disk: Disk, p: Path)
    ensures var e := MakeDirsOn(disk, p);
      forall q :: q in disk ==> q in e.disk && e.disk[q] == disk[q]
    ensures var e := MakeDirsOn(disk, p);
      forall q :: q in e.disk && q !in disk ==> q != [] && q <= p && e.disk[q].Folder?
    decreases |p|
  {
    if p != [] {
      MakeDirsOnlyAdds(disk, DirName(p));
      var e := MakeDirsOn(disk, p);
      forall q | q in e.disk && q !in disk ensures q != [] && q <= p && e.disk[q].Folder? {
        if q != p {
          var up := MakeDirsOn(disk, DirName(p));
          assert q in up.disk;
          assert q <= DirName(p) && DirName(p) <= p;
        }
      }
    }
  }

  /** os.makedirs(p, exist_ok=True) succeeds exactly when no prefix of p exists as
      something other than a directory, and then every prefix of p is a directory. */
  lemma {:induction false} MakeDirsPass(disk: Disk, p: Path)
    ensures MakeDirsOn(disk, p).out == Pass <==>
      forall q :: q <= p && q in disk ==> IsFolder(disk, q)
    ensures MakeDirsOn(disk, p).out == Pass ==>
      forall q :: q <= p ==> IsFolder(MakeDirsOn(disk, p).disk, q)
    decreases |p|
  {
    if p != [] {
      var up := MakeDirsOn(disk, DirName(p));
      MakeDirsPass(disk, DirName(p));
      MakeDirsOnlyAdds(disk, DirName(p));
      forall q | q in disk && q <= p && q != p ensures q <= DirName(p) {
        assert q == p[..|q|];
      }
      assert !(p <= DirName(p));
      assert p in up.disk <==> p in disk;
      forall q | q in disk && q <= DirName(p) ensures q <= p {
        assert DirName(p) <= p;
      }
      if p in disk {
        assert up.disk[p] == disk[p];
      }
      var e := MakeDirsOn(disk, p);
      if e.out == Pass {
        forall q | q <= p && q in disk ensures IsFolder(disk, q) {
          if q != p {
            assert q <= DirName(p);
          }
        }
      } else if forall q :: q <= p && q in disk ==> IsFolder(disk, q) {
        assert p <= p;
      }
      if e.out == Pass {
        MakeDirsOnlyAdds(up.disk, p);
        forall q | q <= p ensures IsFolder(e.disk, q) {
          if q != p {
            assert q <= DirName(p);
            assert IsFolder(up.disk, q);
          }
        }
      }
    }
  }

  /** `if not os.path.exists(p): os.makedirs(p)` passes when no prefix of p is a file;
      afterwards p and every prefix of it that exists are folders, nothing that existed changed, and every
      new path is a prefix of p. */
  lemma EnsureDirPass(disk: Disk, p: Path)
    requires forall q :: q <= p && q in disk ==> IsFolder(disk, q)
    ensures var e := EnsureDirOn(disk, p);
      && e.out == Pass
      && IsFolder(e.disk, p)
      && (forall q :: q <= p && q in e.disk ==> IsFolder(e.disk, q))
      && (forall q :: q in disk ==> q in e.disk && e.disk[q] == disk[q])
      && (forall q :: q in e.disk && q !in disk ==> q <= p)
  {
    MakeDirsPass(disk, p);
    MakeDirsOnlyAdds(disk, p);
  }

  /** The exception os.makedirs(p, exist_ok=True) raises: FileNotFoundError exactly when
      a folder on the way to p exists as a file, FileExistsError exactly when the way is
      clear and p itself exists as a file. */
  lemma MakeDirsRaises(disk: Disk, p: Path)
    ensures var e := MakeDirsOn(disk, p);
      && (e.out == Raised(FileNotFoundError) <==> exists q :: q < p && q in disk && !IsFolder(disk, q))
      && (e.out == Raised(FileExistsError) <==>
            (forall q :: q < p && q in disk ==> IsFolder(disk, q)) && p in disk && !IsFolder(disk, p))
      && (e.out.Raised? ==> e.out == Raised(FileNotFoundError) || e.out == Raised(FileExistsError))
  {
    if p != [] {
      var up := MakeDirsOn(disk, DirName(p));
      MakeDirsPass(disk, DirName(p));
      MakeDirsOnlyAdds(disk, DirName(p));
      forall q | q in disk ensures q < p <==> q <= DirName(p) {
        if q < p {
          assert q == p[..|q|];
        }
      }
      assert !(p <= DirName(p));
      if p in disk {
        assert p in up.disk && up.disk[p] == disk[p];
      }
    }
  }

  /** The drive, updated in place by every library call. */
  class Volume {
    var disk: Disk
    /** Base names for which make_archive cannot write its archive (disk full, ...). */
    const archiveFails: set<Path>

    constructor (initial: Disk, failing: set<Path>)
      ensures disk == initial && archiveFails == failing
    {
      disk := initial;
      archiveFails := failing;
    }

    predicate Exists(p: Path)
      reads this
    {
      Present(disk, p)
    }

    method MakeDirs(p: Path) returns (out: Outcome)
      modifies this
      ensures Effect(disk, out) == MakeDirsOn(old(disk), p)
    {
      var e := MakeDirsOn(disk, p);
      disk, out := e.disk, e.out;
    }

    method EnsureDir(p: Path) returns (out: Outcome)
      modifies this
      ensures Effect(disk, out) == EnsureDirOn(old(disk), p)
    {
      if !Exists(p) {
        out := MakeDirs(p);
      } else {
        out := Pass;
      }
    }

    method Copy2(src: Path, n: Node, dst: Path) returns (out: Outcome)
      requires |src| > 0
      modifies this
      ensures Effect(disk, out) == Copy2On(old(disk), src, n, dst)
    {
      var e := Copy2On(disk, src, n, dst);
      disk, out := e.disk, e.out;
    }

    method Open(p: Path, blank: Obj) returns (out: Outcome)
      modifies this
      ensures Effect(disk, out) == OpenOn(old(disk), p, blank)
    {
      var e := OpenOn(disk, p, blank);
      disk, out := e.disk, e.out;
    }

    /** Closing an open file leaves its final content at p. */
    method Close(p: Path, content: Obj)
      modifies this
      ensures disk == old(disk)[p := content]
    {
      disk := disk[p := content];
    }

    method RmTree(p: Path)
      modifies this
      ensures disk == RmTreeOn(old(disk), p)
    {
      disk := RmTreeOn(disk, p);
    }

    method MakeArchive(base: Path, root: Path) returns (out: Outcome)
      requires |base| > 0
      modifies this
      ensures Effect(disk, out) == MakeArchiveOn(old(disk), base, root, base in archiveFails)
    {
      var e := MakeArchiveOn(disk, base, root, base in archiveFails);
      disk, out := e.disk, e.out;
    }
  }
}
