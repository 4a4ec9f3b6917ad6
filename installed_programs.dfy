/** installed_programs_extractor.py: copy_top_level_directories(src, dst) recreates
    the directories directly under src as empty directories under dst. */
module InstalledPrograms {
  import opened Wrappers
  import opened SourceTree
  import opened Destination

  /** [name for name in os.listdir(src) if os.path.isdir(os.path.join(src, name))] */
  function TopLevelDirs(es: seq<Entry>): (ns: seq<string>)
    ensures forall x :: x in ns ==> exists i :: 0 <= i < |es| && es[i].name == x && IsDir(es[i].node)
    ensures forall i :: 0 <= i < |es| && IsDir(es[i].node) ==> es[i].name in ns
    ensures |ns| <= |es|
  {
    if es == [] then []
    else
      var rest := TopLevelDirs(es[1..]);
      assert forall i :: 1 <= i < |es| ==> es[i] == es[1..][i - 1];
      if IsDir(es[0].node) then [es[0].name] + rest else rest
  }

  /** The loop over the first k names: `if not os.path.exists(target_dir): os.makedirs(target_dir)`;
      an exception leaves the loop. */
  function SkeletonOn(disk: Disk, dst: Path, names: seq<string>, k: nat): Effect
    requires k <= |names|
  {
    if k == 0 then Effect(disk, Pass)
    else SkeletonNext(SkeletonOn(disk, dst, names, k - 1), dst, names[k - 1])
  }

  /** One turn of the loop, unless an exception already left it. */
  function SkeletonNext(m: Effect, dst: Path, name: string): Effect {
    if m.out.Raised? then m else EnsureDirOn(m.disk, dst + [name])
  }

  /** copy_top_level_directories(src, dst): the drive afterwards, and the exception that
      leaves it; os.listdir raises for a src that is missing, a file, or unreadable. */
  function CopyTopLevelOn(machine: Node, src: Path, disk: Disk, dst: Path): Effect {
    match Find(machine, src)
    case None => Effect(disk, Raised(FileNotFoundError))
    case Some(File(_, _, _, _)) => Effect(disk, Raised(NotADirectoryError))
    case Some(Unreadable(f)) => Effect(disk, Raised(ListingError(f)))
    case Some(Dir(es)) =>
      var names := TopLevelDirs(es);
      SkeletonOn(disk, dst, names, |names|)
  }

  // ---------------------------------------------------------------------
  // What the skeleton promises

  /** Every path d has that d0 lacked is an empty folder at most one level below dst:
      on the way to dst, or named after one of names. */
  predicate AddsFolders(d0: Disk, d: Disk, dst: Path, names: seq<string>) {
    forall q :: q in d && q !in d0 ==>
      d[q] == Folder && (q <= dst || (|q| == |dst| + 1 && q[..|dst|] == dst && q[|dst|] in names))
  }

  predicate Keeps(d0: Disk, d: Disk) {
    forall q :: q in d0 ==> q in d && d[q] == d0[q]
  }

  /** Nothing on the drive is altered; everything added is an empty folder at most one
      level below dst; and once the loop passes, dst/d exists for each of the first k
      names. */
  lemma {:induction false} SkeletonShape(disk: Disk, dst: Path, names: seq<string>, k: nat)
    requires k <= |names|
    ensures Shaped(disk, SkeletonOn(disk, dst, names, k), dst, names, k)
  {
    if k > 0 {
      var m := SkeletonOn(disk, dst, names, k - 1);
      SkeletonShape(disk, dst, names, k - 1);
      SkeletonStep(disk, m, dst, names, k - 1);
      assert SkeletonOn(disk, dst, names, k) == SkeletonNext(m, dst, names[k - 1]);
    } else {
      assert SkeletonOn(disk, dst, names, k) == Effect(disk, Pass);
    }
  }

  /** The three facts SkeletonShape states about the run e after k names. */
  predicate Shaped(d0: Disk, e: Effect, dst: Path, names: seq<string>, k: nat)
    requires k <= |names|
  {
    && Keeps(d0, e.disk)
    && AddsFolders(d0, e.disk, dst, names)
    && (e.out == Pass ==> forall j :: 0 <= j < k ==> Present(e.disk, dst + [names[j]]))
  }

  lemma SkeletonStep(d0: Disk, m: Effect, dst: Path, names: seq<string>, k: nat)
    requires k < |names|
    requires Shaped(d0, m, dst, names, k)
    ensures Shaped(d0, SkeletonNext(m, dst, names[k]), dst, names, k + 1)
  {
    if m.out == Pass {
      EnsureStep(d0, m.disk, dst, names, k);
    }
  }

  lemma EnsureStep(d0: Disk, m: Disk, dst: Path, names: seq<string>, k: nat)
    requires k < |names|
    requires Shaped(d0, Effect(m, Pass), dst, names, k)
    ensures Shaped(d0, EnsureDirOn(m, dst + [names[k]]), dst, names, k + 1)
  {
    var t := dst + [names[k]];
    MakeDirsOnlyAdds(m, t);
    var e := EnsureDirOn(m, t);
    forall q | q in e.disk && q !in m
      ensures e.disk[q] == Folder
      ensures q <= dst || (|q| == |dst| + 1 && q[..|dst|] == dst && q[|dst|] in names)
    {
      assert q <= t;
      assert q != t ==> q <= dst;
    }
  }

  /** Running the loop again over the drive it left changes nothing and passes. */
  lemma {:induction false} SkeletonIdempotent(disk: Disk, dst: Path, names: seq<string>, k: nat)
    requires k <= |names|
    requires SkeletonOn(disk, dst, names, k).out == Pass
    ensures var d := SkeletonOn(disk, dst, names, k).disk;
      SkeletonOn(d, dst, names, k) == Effect(d, Pass)
  {
    SkeletonShape(disk, dst, names, k);
    var d := SkeletonOn(disk, dst, names, k).disk;
    assert forall j :: 0 <= j < k ==> Present(d, dst + [names[j]]);
    AlreadyThere(d, dst, names, k);
  }

  lemma {:induction false} AlreadyThere(d: Disk, dst: Path, names: seq<string>, k: nat)
    requires k <= |names|
    requires forall j :: 0 <= j < k ==> Present(d, dst + [names[j]])
    ensures SkeletonOn(d, dst, names, k) == Effect(d, Pass)
  {
    if k > 0 {
      AlreadyThere(d, dst, names, k - 1);
    }
  }

  /** copy_top_level_directories as a whole: on success dst/d exists for every directory
      d listed directly under src, and the only paths added are empty folders. */
  lemma TopLevelLands(machine: Node, src: Path, disk: Disk, dst: Path)
    ensures var e := CopyTopLevelOn(machine, src, disk, dst);
      && (forall q :: q in disk ==> q in e.disk && e.disk[q] == disk[q])
      && (forall q :: q in e.disk && q !in disk ==> e.disk[q] == Folder && |q| <= |dst| + 1)
      && (e.out == Pass ==> Find(machine, src).Some? && Find(machine, src).value.Dir?)
      && (e.out == Pass ==>
            forall i :: 0 <= i < |Find(machine, src).value.entries| && IsDir(Find(machine, src).value.entries[i].node) ==>
              Present(e.disk, dst + [Find(machine, src).value.entries[i].name]))
  {
    match Find(machine, src) {
      case Some(Dir(es)) =>
        var names := TopLevelDirs(es);
        SkeletonShape(disk, dst, names, |names|);
        assert names[..|names|] == names;
        var e := SkeletonOn(disk, dst, names, |names|);
        assert Keeps(disk, e.disk) && AddsFolders(disk, e.disk, dst, names);
        if e.out == Pass {
          forall i | 0 <= i < |es| && IsDir(es[i].node) ensures Present(e.disk, dst + [es[i].name]) {
            var j :| 0 <= j < |names| && names[j] == es[i].name;
          }
        }
      case _ =>
    }
  }

  // ---------------------------------------------------------------------
  // The procedure

  /** copy_top_level_directories(src, dst): returns the exception that leaves it, and the
      count the tqdm bar reached. */
  method CopyTopLevelDirectories(machine: Node, src: Path, dst: Path, vol: Volume)
    returns (out: Outcome, progress: nat)
    modifies vol
    ensures Effect(vol.disk, out) == CopyTopLevelOn(machine, src, old(vol.disk), dst)
    ensures out == Pass ==> progress == |TopLevelDirs(Find(machine, src).value.entries)|
  {
    progress := 0;
    match Find(machine, src) {
      case None =>
        out := Raised(FileNotFoundError);
      case Some(File(_, _, _, _)) =>
        out := Raised(NotADirectoryError);
      case Some(Unreadable(f)) =>
        out := Raised(ListingError(f));
      case Some(Dir(es)) =>
        var topLevelDirs := TopLevelDirs(es);
        ghost var d0 := vol.disk;
        out := Pass;
        while progress < |topLevelDirs|
          invariant 0 <= progress <= |topLevelDirs|
          invariant out == Pass
          invariant Effect(vol.disk, Pass) == SkeletonOn(d0, dst, topLevelDirs, progress)
        {
          out := vol.EnsureDir(dst + [topLevelDirs[progress]]);
          if out.Raised? {
            SkeletonStops(d0, dst, topLevelDirs, progress + 1, |topLevelDirs|);
            return;
          }
          progress := progress + 1;
        }
    }
  }

  lemma {:induction false} SkeletonStops(disk: Disk, dst: Path, names: seq<string>, k: nat, j: nat)
    requires k <= j <= |names| && SkeletonOn(disk, dst, names, k).out.Raised?
    ensures SkeletonOn(disk, dst, names, j) == SkeletonOn(disk, dst, names, k)
    decreases j
  {
    if j > k {
      SkeletonStops(disk, dst, names, k, j - 1);
    }
  }
}
