/** prefetch_extractor.py: every file under %WINDIR%\Prefetch, mirrored below
    target_dir\Windows, with one manifest row per copied file and a progress bar
    counting them. */
module Prefetch {
  import opened Wrappers
  import opened SourceTree
  import opened Manifest
  import opened Destination
  import opened Mirror

  const ManifestName: string := "prefetch_files.csv"

  /** os.path.join(os.environ['WINDIR'], 'Prefetch'), with the variable's value given. */
  function PrefetchDir(windir: Path): Path {
    windir + ["Prefetch"]
  }

  /** os.path.join(target_dir, 'Windows'): where the relative paths are joined. */
  function Mirrored(target: Path): Path {
    target + ["Windows"]
  }

  /** The files os.walk(prefetch_dir) yields, in the order the nested loops visit them;
      none when the directory does not exist. */
  function PrefetchFiles(machine: Node, windir: Path): (fs: seq<Found>)
    ensures Under(fs, windir)
    ensures forall f :: f in fs ==> PrefetchDir(windir) < f.path
  {
    match Find(machine, PrefetchDir(windir))
    case None => []
    case Some(n) =>
      WalkBelow(n, PrefetchDir(windir));
      WalkFilesBelow(Walk(n, PrefetchDir(windir)), PrefetchDir(windir));
      WalkFiles(Walk(n, PrefetchDir(windir)))
  }

  /** copy_prefetch_files(target_dir): the drive afterwards, and the error its handler
      caught and logged (Pass when none). */
  function PrefetchOn(machine: Node, windir: Path, disk: Disk, target: Path): Effect {
    if !Exists(machine, PrefetchDir(windir)) then Effect(disk, Pass)
    else CopyAllOn(PrefetchFiles(machine, windir), windir, disk, target)
  }

  /** Lines 44-68 of copy_prefetch_files on the walked files fs: the target directory,
      the manifest with its header, and the copying loops; the with-block closes the
      manifest holding the rows written so far. */
  function CopyAllOn(fs: seq<Found>, windir: Path, disk: Disk, target: Path): Effect
    requires Under(fs, windir)
  {
    var mk := EnsureDirOn(disk, target);
    if mk.out.Raised? then mk
    else
      var csv := target + [ManifestName];
      var op := OpenOn(mk.disk, csv, Csv([]));
      if op.out.Raised? then op
      else
        var r := MirrorFrom(Run(op.disk, [Header], Pass), fs, windir, Mirrored(target));
        Effect(r.disk[csv := Csv(r.rows)], r.out)
  }

  // ---------------------------------------------------------------------
  // What the extraction promises

  /** Once the manifest is open it ends up holding the header, then one row per copied
      file in walk order; when nothing was caught, one row for every file of the walk. */
  lemma PrefetchManifest(machine: Node, windir: Path, disk: Disk, target: Path)
    requires Exists(machine, PrefetchDir(windir))
    requires EnsureDirOn(disk, target).out == Pass
    requires OpenOn(EnsureDirOn(disk, target).disk, target + [ManifestName], Csv([])).out == Pass
    ensures var e := PrefetchOn(machine, windir, disk, target);
      var fs := PrefetchFiles(machine, windir);
      && target + [ManifestName] in e.disk
      && e.disk[target + [ManifestName]].Csv?
      && var rows := e.disk[target + [ManifestName]].rows;
      && 1 <= |rows| <= 1 + |fs|
      && rows == [Header] + Records(fs[..|rows| - 1])
      && (e.out == Pass <==> |rows| == 1 + |fs|)
  {
    var op := OpenOn(EnsureDirOn(disk, target).disk, target + [ManifestName], Csv([]));
    MirrorLogs(Run(op.disk, [Header], Pass), PrefetchFiles(machine, windir), windir, Mirrored(target));
  }

  /** No two walked files lie on one branch of the machine's tree. */
  lemma PrefetchSpread(machine: Node, windir: Path)
    requires WellFormed(machine)
    ensures Spread(PrefetchFiles(machine, windir))
  {
    if n :| Find(machine, PrefetchDir(windir)) == Some(n) {
      FindWellFormed(machine, PrefetchDir(windir));
      WalkSpread(n, PrefetchDir(windir));
    }
  }

  /** The copies go to target\Windows\Prefetch\..., never onto the target directory or
      its manifest, and nowhere that existed before when nothing was below target. */
  lemma FreshTargets(disk: Disk, machine: Node, windir: Path, target: Path)
    requires forall q :: q in disk ==> !(target < q)
    ensures var fs := PrefetchFiles(machine, windir);
      forall i :: 0 <= i < |fs| ==>
        var t := Retarget(fs[i].path, windir, Mirrored(target));
        t !in EnsureDirOn(disk, target).disk && t != target + [ManifestName]
  {
    var fs := PrefetchFiles(machine, windir);
    MakeDirsOnlyAdds(disk, target);
    forall i | 0 <= i < |fs|
      ensures Retarget(fs[i].path, windir, Mirrored(target)) !in EnsureDirOn(disk, target).disk
      ensures Retarget(fs[i].path, windir, Mirrored(target)) != target + [ManifestName]
    {
      var t := Retarget(fs[i].path, windir, Mirrored(target));
      assert fs[i] in fs;
      assert t[|target|] == "Windows";
      assert target < t && !(t <= target);
    }
  }

  /** With nothing below the target directory beforehand, every file of the walk lands at
      target\Windows joined with its path relative to %WINDIR%, and nothing that was on
      the drive is altered. */
  lemma PrefetchLands(machine: Node, windir: Path, disk: Disk, target: Path)
    requires WellFormed(machine)
    requires forall q :: q in disk ==> !(target < q)
    ensures var e := PrefetchOn(machine, windir, disk, target);
      && Kept(disk, e.disk)
      && (e.out == Pass ==> Landed(e.disk, PrefetchFiles(machine, windir), windir, Mirrored(target)))
  {
    var csv := target + [ManifestName];
    var mk := EnsureDirOn(disk, target);
    MakeDirsOnlyAdds(disk, target);
    assert Kept(disk, mk.disk);
    if Exists(machine, PrefetchDir(windir)) && mk.out == Pass {
      var op := OpenOn(mk.disk, csv, Csv([]));
      if op.out == Pass {
        assert csv !in disk by {
          assert target < csv;
        }
        CopiesLand(machine, windir, disk, target, op.disk);
      }
    }
  }

  /** The copying loops and the closing of the manifest, from the drive with the
      manifest open. */
  lemma CopiesLand(machine: Node, windir: Path, disk: Disk, target: Path, start: Disk)
    requires WellFormed(machine)
    requires forall q :: q in disk ==> !(target < q)
    requires target + [ManifestName] !in disk
    requires start == EnsureDirOn(disk, target).disk[target + [ManifestName] := Csv([])]
    requires Kept(disk, EnsureDirOn(disk, target).disk)
    ensures var r := MirrorFrom(Run(start, [Header], Pass), PrefetchFiles(machine, windir), windir, Mirrored(target));
      var d := r.disk[target + [ManifestName] := Csv(r.rows)];
      && Kept(disk, d)
      && (r.out == Pass ==> Landed(d, PrefetchFiles(machine, windir), windir, Mirrored(target)))
  {
    var csv := target + [ManifestName];
    var fs := PrefetchFiles(machine, windir);
    var r0 := Run(start, [Header], Pass);
    PrefetchSpread(machine, windir);
    FreshTargets(disk, machine, windir, target);
    MirrorLands(r0, fs, windir, Mirrored(target));
    var r := MirrorFrom(r0, fs, windir, Mirrored(target));
    assert Kept(disk, start);
    assert Kept(disk, r.disk);
    if r.out == Pass {
      forall i | 0 <= i < |fs|
        ensures Retarget(fs[i].path, windir, Mirrored(target)) in r.disk[csv := Csv(r.rows)]
        ensures r.disk[csv := Csv(r.rows)][Retarget(fs[i].path, windir, Mirrored(target))] == Copied(fs[i].file.data)
      {
      }
    }
  }

  // ---------------------------------------------------------------------
  // The procedure

  /** copy_prefetch_files(target_dir), with %WINDIR% given: returns the error its handler
      caught (Pass when none), the progress bar's total and the count it reached. A
      missing Prefetch directory leaves the drive as it was. */
  method CopyPrefetchFiles(machine: Node, windir: Path, target: Path, vol: Volume)
    returns (caught: Outcome, total: nat, progress: nat)
    modifies vol
    ensures Effect(vol.disk, caught) == PrefetchOn(machine, windir, old(vol.disk), target)
    ensures !Exists(machine, PrefetchDir(windir)) ==> vol.disk == old(vol.disk) && caught == Pass
    ensures total == |PrefetchFiles(machine, windir)|
    ensures progress <= total
    ensures caught == Pass ==> progress == total
  {
    caught, total, progress := Pass, 0, 0;
    var prefetchDir := PrefetchDir(windir);
    var found := Find(machine, prefetchDir);
    if found.None? {
      return;
    }
    var steps := Walk(found.value, prefetchDir);
    total := TotalFiles(steps);
    WalkBelow(found.value, prefetchDir);
    WalkFilesBelow(steps, prefetchDir);
    assert PrefetchFiles(machine, windir) == WalkFiles(steps);
    caught, progress := CopyAll(steps, windir, target, vol);
  }

  /** Lines 44-68 of copy_prefetch_files once the walk is known: the count of copied
      files reaches the walk's file count when nothing was raised. */
  method CopyAll(steps: seq<WalkStep>, windir: Path, target: Path, vol: Volume)
    returns (caught: Outcome, progress: nat)
    requires Under(WalkFiles(steps), windir)
    modifies vol
    ensures Effect(vol.disk, caught) == CopyAllOn(WalkFiles(steps), windir, old(vol.disk), target)
    ensures progress <= |WalkFiles(steps)|
    ensures caught == Pass ==> progress == |WalkFiles(steps)|
  {
    progress := 0;
    caught := vol.EnsureDir(target);
    if caught.Raised? {
      return;
    }
    ghost var made := vol.disk;
    var csv := target + [ManifestName];
    caught := vol.Open(csv, Csv([]));
    if caught.Raised? {
      return;
    }
    assert vol.disk == OpenOn(made, csv, Csv([])).disk;
    var writer := new CsvWriter();
    writer.WriteRow(Header);
    ghost var r0 := Run(vol.disk, writer.rows, Pass);
    assert r0 == Run(OpenOn(EnsureDirOn(old(vol.disk), target).disk, csv, Csv([])).disk, [Header], Pass);
    progress, caught := CopyWalk(steps, windir, Mirrored(target), vol, writer);
    MirrorLogs(r0, WalkFiles(steps), windir, Mirrored(target));
    vol.Close(csv, Csv(writer.rows));
  }

  /** sum(len(files) for _, _, files in os.walk(prefetch_dir)) */
  method TotalFiles(steps: seq<WalkStep>) returns (total: nat)
    ensures total == |WalkFiles(steps)|
  {
    total := 0;
    var i := 0;
    while i < |steps|
      invariant 0 <= i <= |steps|
      invariant total == |WalkFiles(steps[..i])|
    {
      assert steps[..i + 1][..i] == steps[..i];
      total := total + |steps[i].files|;
      i := i + 1;
    }
    assert steps[..i] == steps;
  }

  /** The nested `for root, dirs, files in os.walk(...)` / `for file_name in files` loops:
      each file copied, logged and counted by pbar.update(1); an exception leaves through
      `out` and ends both loops. */
  method CopyWalk(steps: seq<WalkStep>, base: Path, into: Path, vol: Volume, writer: CsvWriter)
    returns (progress: nat, out: Outcome)
    requires Under(WalkFiles(steps), base)
    modifies vol, writer
    ensures Run(vol.disk, writer.rows, out)
         == MirrorFrom(Run(old(vol.disk), old(writer.rows), Pass), WalkFiles(steps), base, into)
    ensures progress == |writer.rows| - |old(writer.rows)|
  {
    ghost var r0 := Run(vol.disk, writer.rows, Pass);
    progress, out := 0, Pass;
    var i := 0;
    while i < |steps|
      invariant 0 <= i <= |steps|
      invariant Under(WalkFiles(steps[..i]), base)
      invariant Run(vol.disk, writer.rows, Pass) == MirrorFrom(r0, WalkFiles(steps[..i]), base, into)
      invariant progress == |writer.rows| - |r0.rows|
      invariant out == Pass
    {
      NextStep(r0, steps, i, base, into);
      var n;
      n, out := CopyStepFiles(steps[i].root, steps[i].files, base, into, vol, writer);
      progress := progress + n;
      if out.Raised? {
        return;
      }
      i := i + 1;
    }
    assert steps[..i] == steps;
  }

  /** The files of walk triple i added to the run, and where an exception there leaves it. */
  lemma NextStep(r0: Run, steps: seq<WalkStep>, i: nat, base: Path, into: Path)
    requires i < |steps| && Under(WalkFiles(steps), base)
    ensures var fs := InDir(steps[i].root, steps[i].files);
      && Under(fs, base) && Under(WalkFiles(steps[..i]), base) && Under(WalkFiles(steps[..i + 1]), base)
      && var m := MirrorFrom(r0, WalkFiles(steps[..i]), base, into);
      && MirrorFrom(r0, WalkFiles(steps[..i + 1]), base, into) == MirrorFrom(m, fs, base, into)
      && (MirrorFrom(m, fs, base, into).out.Raised? ==>
            MirrorFrom(r0, WalkFiles(steps), base, into) == MirrorFrom(m, fs, base, into))
  {
    var fs := InDir(steps[i].root, steps[i].files);
    WalkFilesSplit(steps, i, |steps[i].files|);
    VisitedEnd(steps, i);
    var rest := InDir(steps[i].root, steps[i].files[|steps[i].files|..]) + WalkFiles(steps[i + 1..]);
    assert WalkFiles(steps) == WalkFiles(steps[..i + 1]) + rest;
    assert steps[..i + 1][..i] == steps[..i];
    assert WalkFiles(steps[..i + 1]) == WalkFiles(steps[..i]) + fs;
    MirrorAppend(r0, WalkFiles(steps[..i]), fs, base, into);
    var m := MirrorFrom(r0, WalkFiles(steps[..i]), base, into);
    if MirrorFrom(m, fs, base, into).out.Raised? {
      StopAtRaise(r0, WalkFiles(steps[..i + 1]), rest, base, into);
    }
  }

  /** The inner loop over the files of one walk triple. */
  method CopyStepFiles(root: Path, files: seq<Entry>, base: Path, into: Path, vol: Volume, writer: CsvWriter)
    returns (progress: nat, out: Outcome)
    requires Under(InDir(root, files), base)
    modifies vol, writer
    ensures Run(vol.disk, writer.rows, out)
         == MirrorFrom(Run(old(vol.disk), old(writer.rows), Pass), InDir(root, files), base, into)
    ensures progress == |writer.rows| - |old(writer.rows)|
  {
    ghost var r0 := Run(vol.disk, writer.rows, Pass);
    progress, out := 0, Pass;
    var j := 0;
    while j < |files|
      invariant 0 <= j <= |files|
      invariant Under(InDir(root, files[..j]), base)
      invariant Run(vol.disk, writer.rows, Pass) == MirrorFrom(r0, InDir(root, files[..j]), base, into)
      invariant progress == |writer.rows| - |r0.rows|
      invariant out == Pass
    {
      var file := Found(root + [files[j].name], files[j].node);
      NextEntry(r0, root, files, j, base, into);
      out := CopyFile(file, base, into, vol, writer);
      if out.Raised? {
        StopInStep(r0, root, files, j + 1, base, into);
        return;
      }
      progress := progress + 1;
      j := j + 1;
    }
    assert files[..j] == files;
  }

  /** What visiting file j of a walk triple adds to the run. */
  lemma NextEntry(r0: Run, root: Path, files: seq<Entry>, j: nat, base: Path, into: Path)
    requires j < |files| && Under(InDir(root, files), base)
    ensures var f := Found(root + [files[j].name], files[j].node);
      && Under(InDir(root, files[..j]), base)
      && Under(InDir(root, files[..j + 1]), base)
      && base < f.path && f.file.File?
      && MirrorFrom(r0, InDir(root, files[..j + 1]), base, into)
         == MirrorStep(MirrorFrom(r0, InDir(root, files[..j]), base, into), f, base, into)
  {
    var f := Found(root + [files[j].name], files[j].node);
    assert files[..j + 1] == files[..j] + [files[j]];
    assert files == files[..j + 1] + files[j + 1..];
    InDirAppend(root, files[..j], [files[j]]);
    InDirAppend(root, files[..j + 1], files[j + 1..]);
    assert f in InDir(root, files);
    MirrorSnoc(r0, InDir(root, files[..j]), f, base, into);
  }

  /** An exception at file k of a walk triple leaves the state the whole triple would. */
  lemma StopInStep(r0: Run, root: Path, files: seq<Entry>, k: nat, base: Path, into: Path)
    requires k <= |files|
    requires Under(InDir(root, files), base) && Under(InDir(root, files[..k]), base)
    requires MirrorFrom(r0, InDir(root, files[..k]), base, into).out.Raised?
    ensures MirrorFrom(r0, InDir(root, files), base, into)
         == MirrorFrom(r0, InDir(root, files[..k]), base, into)
  {
    assert files == files[..k] + files[k..];
    InDirAppend(root, files[..k], files[k..]);
    StopAtRaise(r0, InDir(root, files[..k]), InDir(root, files[k..]), base, into);
  }
}
