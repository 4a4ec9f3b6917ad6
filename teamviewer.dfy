/** teamviewer_extractor.py: the .txt and .log files under C:\Program Files (x86)\TeamViewer,
    mirrored below the target directory, with one manifest row per copied file. */
module TeamViewer {
  import opened Wrappers
  import opened SourceTree
  import opened Manifest
  import opened Destination
  import opened Mirror

  /** paths_to_search: the one TeamViewer installation directory searched. */
  const SearchPaths: seq<Path> := [["Program Files (x86)", "TeamViewer"]]

  const ManifestName: string := "teamviewer_files.csv"

  predicate EndsWith(s: string, suffix: string) {
    |suffix| <= |s| && s[|s| - |suffix|..] == suffix
  }

  /** file_name.endswith('.txt') or file_name.endswith('.log'), case-sensitive as str.endswith is. */
  predicate Wanted(name: string) {
    EndsWith(name, ".txt") || EndsWith(name, ".log")
  }

  predicate WantedFile(f: Found) {
    |f.path| > 0 && Wanted(Last(f.path))
  }

  /** The walked files the extension filter lets through, in walk order. */
  function Keep(fs: seq<Found>): (ks: seq<Found>)
    ensures forall f :: f in ks <==> f in fs && WantedFile(f)
  {
    if fs == [] then []
    else
      var init := fs[..|fs| - 1];
      assert fs == init + [fs[|fs| - 1]];
      Keep(init) + (if WantedFile(fs[|fs| - 1]) then [fs[|fs| - 1]] else [])
  }

  lemma {:induction false} KeepAppend(a: seq<Found>, b: seq<Found>)
    ensures Keep(a + b) == Keep(a) + Keep(b)
    decreases |b|
  {
    if b == [] {
      assert a + b == a;
    } else {
      assert (a + b)[..|a + b| - 1] == a + b[..|b| - 1];
      assert (a + b)[|a + b| - 1] == b[|b| - 1];
      KeepAppend(a, b[..|b| - 1]);
    }
  }

  /** Filtering keeps files apart. */
  lemma {:induction false} KeepSpread(fs: seq<Found>)
    requires Spread(fs)
    ensures Spread(Keep(fs))
  {
    if fs != [] {
      var init := fs[..|fs| - 1];
      var f := fs[|fs| - 1];
      assert Spread(init);
      KeepSpread(init);
      if WantedFile(f) {
        forall g | g in Keep(init) ensures Apart(g.path, f.path) {
          var i :| 0 <= i < |init| && init[i] == g;
          assert fs[i] == g;
        }
        SpreadConcat(Keep(init), [f]);
      }
    }
  }

  /** The files copy_files_from_path copies from `path`, in the order it copies them:
      none when the path does not exist. */
  function Collected(machine: Node, path: Path): (fs: seq<Found>)
    ensures Under(fs, path)
    ensures forall f :: f in fs ==> WantedFile(f)
  {
    match Find(machine, path)
    case None => []
    case Some(n) =>
      WalkBelow(n, path);
      WalkFilesBelow(Walk(n, path), path);
      Keep(WalkFiles(Walk(n, path)))
  }

  /** The files the `for base_path in paths_to_search` loop copies, root after root. */
  function CollectedAll(machine: Node, roots: seq<Path>): seq<Found> {
    if roots == [] then []
    else CollectedAll(machine, roots[..|roots| - 1]) + Collected(machine, roots[|roots| - 1])
  }

  /** The search loop from run r: each root's files mirrored below target, until an
      exception leaves. */
  function SearchFrom(r: Run, machine: Node, roots: seq<Path>, target: Path): Run {
    if roots == [] then r
    else
      var m := SearchFrom(r, machine, roots[..|roots| - 1], target);
      var p := roots[|roots| - 1];
      if m.out.Raised? then m else MirrorFrom(m, Collected(machine, p), p, target)
  }

  /** copy_teamviewer_files(target): the drive afterwards, and the error its handler
      caught and logged (Pass when none). */
  function TeamViewerOn(machine: Node, disk: Disk, target: Path): Effect {
    var mk := EnsureDirOn(disk, target);
    if mk.out.Raised? then mk
    else
      var csv := target + [ManifestName];
      var op := OpenOn(mk.disk, csv, Csv([]));
      if op.out.Raised? then op
      else
        var r := SearchFrom(Run(op.disk, [Header], Pass), machine, SearchPaths, target);
        Effect(r.disk[csv := Csv(r.rows)], r.out)
  }

  // ---------------------------------------------------------------------
  // What the collection promises

  lemma CollectedAllRecordable(machine: Node, roots: seq<Path>)
    ensures Recordable(CollectedAll(machine, roots))
  {
    if roots != [] {
      var before := CollectedAll(machine, roots[..|roots| - 1]);
      var fs := Collected(machine, roots[|roots| - 1]);
      CollectedAllRecordable(machine, roots[..|roots| - 1]);
      RecordsConcat(before, fs);
    }
  }

  /** The rows the search loop adds are those of a prefix of the collected files, one
      each and in order; all of them exactly when no exception left. */
  lemma {:induction false} SearchLogs(r: Run, machine: Node, roots: seq<Path>, target: Path)
    requires r.out == Pass
    ensures Recordable(CollectedAll(machine, roots))
    ensures Logged(r, SearchFrom(r, machine, roots, target), CollectedAll(machine, roots))
  {
    CollectedAllRecordable(machine, roots);
    if roots == [] {
      AppendedNone(r.rows, CollectedAll(machine, roots));
    } else {
      var init := roots[..|roots| - 1];
      var p := roots[|roots| - 1];
      SearchLogs(r, machine, init, target);
      var m := SearchFrom(r, machine, init, target);
      var before := CollectedAll(machine, init);
      var fs := Collected(machine, p);
      RecordsConcat(before, fs);
      if m.out == Pass {
        MirrorLogs(m, fs, p, target);
        LoggedThen(r, m, MirrorFrom(m, fs, p, target), before, fs);
      } else {
        LoggedStops(r, m, before, fs);
      }
    }
  }

  /** After the header, a search that passes has written one row per collected file. */
  lemma SearchCount(r: Run, machine: Node, target: Path)
    requires r.out == Pass && |r.rows| == 1
    ensures var e := SearchFrom(r, machine, SearchPaths, target);
      e.out == Pass ==> |e.rows| - 1 == |CollectedAll(machine, SearchPaths)|
  {
    SearchLogs(r, machine, SearchPaths, target);
  }

  /** Once the manifest is open it ends up holding the header, then one row per copied
      file in copy order; when nothing was caught, one row for every collected file. */
  lemma TeamViewerManifest(machine: Node, disk: Disk, target: Path)
    requires EnsureDirOn(disk, target).out == Pass
    requires OpenOn(EnsureDirOn(disk, target).disk, target + [ManifestName], Csv([])).out == Pass
    ensures var e := TeamViewerOn(machine, disk, target);
      var all := CollectedAll(machine, SearchPaths);
      && Recordable(all)
      && target + [ManifestName] in e.disk
      && e.disk[target + [ManifestName]].Csv?
      && var rows := e.disk[target + [ManifestName]].rows;
      && 1 <= |rows| <= 1 + |all|
      && rows == [Header] + Records(all[..|rows| - 1])
      && (e.out == Pass <==> |rows| == 1 + |all|)
  {
    var op := OpenOn(EnsureDirOn(disk, target).disk, target + [ManifestName], Csv([]));
    SearchLogs(Run(op.disk, [Header], Pass), machine, SearchPaths, target);
  }

  /** No two collected files lie on one branch of the machine's tree. */
  lemma CollectedSpread(machine: Node, root: Path)
    requires WellFormed(machine)
    ensures Spread(Collected(machine, root))
  {
    if n :| Find(machine, root) == Some(n) {
      FindWellFormed(machine, root);
      WalkSpread(n, root);
      KeepSpread(WalkFiles(Walk(n, root)));
    }
  }

  /** With its single search root, the search loop mirrors that root's files. */
  lemma SearchSingle(r: Run, machine: Node, target: Path)
    ensures SearchFrom(r, machine, SearchPaths, target)
         == MirrorFrom(r, Collected(machine, SearchPaths[0]), SearchPaths[0], target)
  {
    assert SearchPaths[..0] == [];
    if r.out.Raised? {
      MirrorRaisedStays(r, Collected(machine, SearchPaths[0]), SearchPaths[0], target);
    }
  }

  /** No target of a collected file is on the drive once the target directory and the
      manifest exist, when nothing was below the target directory before. */
  lemma FreshTargets(disk: Disk, target: Path, fs: seq<Found>, root: Path)
    requires forall q :: q in disk ==> !(target < q)
    requires Under(fs, root) && forall f :: f in fs ==> WantedFile(f)
    ensures var csv := target + [ManifestName];
      forall i :: 0 <= i < |fs| ==>
        var t := Retarget(fs[i].path, root, target);
        t !in EnsureDirOn(disk, target).disk && t != csv
  {
    MakeDirsOnlyAdds(disk, target);
    forall i | 0 <= i < |fs|
      ensures Retarget(fs[i].path, root, target) !in EnsureDirOn(disk, target).disk
      ensures Retarget(fs[i].path, root, target) != target + [ManifestName]
    {
      var f := fs[i];
      var t := Retarget(f.path, root, target);
      assert f in fs;
      assert Last(t) == Last(f.path);
      assert !Wanted(ManifestName);
      assert !(t <= target);
    }
  }

  /** With nothing below the target directory beforehand, every collected file lands
      at target joined with its path relative to the search root, and nothing that
      was on the drive is altered. */
  lemma TeamViewerLands(machine: Node, disk: Disk, target: Path)
    requires WellFormed(machine)
    requires forall q :: q in disk ==> !(target < q)
    ensures var e := TeamViewerOn(machine, disk, target);
      && Kept(disk, e.disk)
      && (e.out == Pass ==> Landed(e.disk, Collected(machine, SearchPaths[0]), SearchPaths[0], target))
  {
    var csv := target + [ManifestName];
    var mk := EnsureDirOn(disk, target);
    MakeDirsOnlyAdds(disk, target);
    assert Kept(disk, mk.disk);
    if mk.out == Pass {
      var op := OpenOn(mk.disk, csv, Csv([]));
      if op.out == Pass {
        assert csv !in disk by {
          assert target < csv;
        }
        SearchLands(machine, disk, target, op.disk);
      }
    }
  }

  /** The search and the closing of the manifest, from the drive with the manifest open. */
  lemma SearchLands(machine: Node, disk: Disk, target: Path, start: Disk)
    requires WellFormed(machine)
    requires forall q :: q in disk ==> !(target < q)
    requires target + [ManifestName] !in disk
    requires start == EnsureDirOn(disk, target).disk[target + [ManifestName] := Csv([])]
    requires Kept(disk, EnsureDirOn(disk, target).disk)
    ensures var r := SearchFrom(Run(start, [Header], Pass), machine, SearchPaths, target);
      var d := r.disk[target + [ManifestName] := Csv(r.rows)];
      && Kept(disk, d)
      && (r.out == Pass ==> Landed(d, Collected(machine, SearchPaths[0]), SearchPaths[0], target))
  {
    var root := SearchPaths[0];
    var csv := target + [ManifestName];
    var fs := Collected(machine, root);
    var r0 := Run(start, [Header], Pass);
    SearchSingle(r0, machine, target);
    CollectedSpread(machine, root);
    FreshTargets(disk, target, fs, root);
    MirrorLands(r0, fs, root, target);
    var r := MirrorFrom(r0, fs, root, target);
    assert Kept(disk, start);
    assert Kept(disk, r.disk);
    if r.out == Pass {
      LandedBeside(r.disk, fs, root, target, csv, Csv(r.rows));
    }
  }

  // ---------------------------------------------------------------------
  // The procedures

  /** copy_teamviewer_files(target_dir): creates the target directory when missing, opens
      the manifest, writes its header and searches every root; the handler catches any
      exception and logs it, returned here as `caught`. The manifest is closed, holding
      the rows written so far, however the search ends. */
  method CopyTeamViewerFiles(machine: Node, target: Path, vol: Volume) returns (caught: Outcome, filesCopied: nat)
    modifies vol
    ensures Effect(vol.disk, caught) == TeamViewerOn(machine, old(vol.disk), target)
    ensures caught == Pass ==> filesCopied == |CollectedAll(machine, SearchPaths)|
  {
    filesCopied := 0;
    caught := vol.EnsureDir(target);
    if caught.Raised? {
      return;
    }
    ghost var made := vol.disk;
    var csv := target + [ManifestName];
    caught := vol.Open(csv, Csv([]));
    if caught.Raised? {
      return;
    }
    assert vol.disk == OpenOn(made, csv, Csv([])).disk;
    var writer := new CsvWriter();
    writer.WriteRow(Header);
    ghost var r0 := Run(vol.disk, writer.rows, Pass);
    assert r0 == Run(OpenOn(EnsureDirOn(old(vol.disk), target).disk, csv, Csv([])).disk, [Header], Pass);
    filesCopied, caught := SearchAll(machine, target, vol, writer);
    SearchCount(r0, machine, target);
    vol.Close(csv, Csv(writer.rows));
  }

  /** `for base_path in paths_to_search: files_copied += copy_files_from_path(...)`:
      the sum of the per-root counts is the number of rows written. */
  method SearchAll(machine: Node, target: Path, vol: Volume, writer: CsvWriter)
    returns (filesCopied: nat, out: Outcome)
    modifies vol, writer
    ensures Run(vol.disk, writer.rows, out)
         == SearchFrom(Run(old(vol.disk), old(writer.rows), Pass), machine, SearchPaths, target)
    ensures filesCopied == |writer.rows| - |old(writer.rows)|
  {
    ghost var r0 := Run(vol.disk, writer.rows, Pass);
    filesCopied, out := 0, Pass;
    var k := 0;
    while k < |SearchPaths|
      invariant 0 <= k <= |SearchPaths|
      invariant Run(vol.disk, writer.rows, out) == SearchFrom(r0, machine, SearchPaths[..k], target)
      invariant out == Pass
      invariant filesCopied == |writer.rows| - |r0.rows|
    {
      assert SearchPaths[..k + 1][..k] == SearchPaths[..k];
      var n;
      n, out := CopyFilesFromPath(machine, SearchPaths[k], target, vol, writer);
      filesCopied := filesCopied + n;
      if out.Raised? {
        assert SearchPaths[..k + 1] == SearchPaths;
        return;
      }
      k := k + 1;
    }
    assert SearchPaths[..k] == SearchPaths;
  }

  /** copy_files_from_path(path, target_dir, csv_writer): walks path, copies every .txt
      and .log file to target_dir/<path relative to `path`>, writes its row, and returns
      how many it copied; an exception leaves through `out` and ends the walk. */
  method CopyFilesFromPath(machine: Node, path: Path, target: Path, vol: Volume, writer: CsvWriter)
    returns (copied: nat, out: Outcome)
    modifies vol, writer
    ensures Run(vol.disk, writer.rows, out)
         == MirrorFrom(Run(old(vol.disk), old(writer.rows), Pass), Collected(machine, path), path, target)
    ensures copied == |writer.rows| - |old(writer.rows)|
    ensures Find(machine, path).None? ==>
      copied == 0 && out == Pass && vol.disk == old(vol.disk) && writer.rows == old(writer.rows)
  {
    ghost var r0 := Run(vol.disk, writer.rows, Pass);
    copied, out := 0, Pass;
    var found := Find(machine, path);
    if found.None? {
      assert Collected(machine, path) == [];
      return;
    }
    var steps := Walk(found.value, path);
    WalkBelow(found.value, path);
    WalkFilesBelow(steps, path);
    assert Collected(machine, path) == Keep(WalkFiles(steps));
    var i := 0;
    while i < |steps|
      invariant 0 <= i <= |steps|
      invariant Under(WalkFiles(steps[..i]), path)
      invariant Run(vol.disk, writer.rows, Pass) == MirrorFrom(r0, Keep(WalkFiles(steps[..i])), path, target)
      invariant copied == |writer.rows| - |r0.rows|
      invariant out == Pass
    {
      NextTriple(r0, steps, i, path, target);
      var n;
      n, out := CopyWantedFiles(steps[i].root, steps[i].files, path, target, vol, writer);
      copied := copied + n;
      if out.Raised? {
        return;
      }
      i := i + 1;
    }
    assert steps[..i] == steps;
  }

  /** The files of walk triple i added to the run, and where an exception there leaves it. */
  lemma NextTriple(r0: Run, steps: seq<WalkStep>, i: nat, path: Path, target: Path)
    requires i < |steps| && Under(WalkFiles(steps), path)
    ensures var fs := InDir(steps[i].root, steps[i].files);
      && Under(fs, path) && Under(WalkFiles(steps[..i]), path) && Under(WalkFiles(steps[..i + 1]), path)
      && var m := MirrorFrom(r0, Keep(WalkFiles(steps[..i])), path, target);
      && MirrorFrom(r0, Keep(WalkFiles(steps[..i + 1])), path, target) == MirrorFrom(m, Keep(fs), path, target)
      && (MirrorFrom(m, Keep(fs), path, target).out.Raised? ==>
            MirrorFrom(r0, Keep(WalkFiles(steps)), path, target) == MirrorFrom(m, Keep(fs), path, target))
  {
    var fs := InDir(steps[i].root, steps[i].files);
    WalkFilesSplit(steps, i, |steps[i].files|);
    VisitedEnd(steps, i);
    var rest := InDir(steps[i].root, steps[i].files[|steps[i].files|..]) + WalkFiles(steps[i + 1..]);
    assert WalkFiles(steps) == WalkFiles(steps[..i + 1]) + rest;
    assert steps[..i + 1][..i] == steps[..i];
    assert WalkFiles(steps[..i + 1]) == WalkFiles(steps[..i]) + fs;
    KeepAppend(WalkFiles(steps[..i]), fs);
    MirrorAppend(r0, Keep(WalkFiles(steps[..i])), Keep(fs), path, target);
    var m := MirrorFrom(r0, Keep(WalkFiles(steps[..i])), path, target);
    if MirrorFrom(m, Keep(fs), path, target).out.Raised? {
      KeepAppend(WalkFiles(steps[..i + 1]), rest);
      StopAtRaise(r0, Keep(WalkFiles(steps[..i + 1])), Keep(rest), path, target);
    }
  }

  /** The inner `for file_name in files` loop over one walk triple: each .txt or .log
      file copied and logged in turn. */
  method CopyWantedFiles(root: Path, files: seq<Entry>, path: Path, target: Path, vol: Volume, writer: CsvWriter)
    returns (copied: nat, out: Outcome)
    requires Under(InDir(root, files), path)
    modifies vol, writer
    ensures Run(vol.disk, writer.rows, out)
         == MirrorFrom(Run(old(vol.disk), old(writer.rows), Pass), Keep(InDir(root, files)), path, target)
    ensures copied == |writer.rows| - |old(writer.rows)|
  {
    ghost var r0 := Run(vol.disk, writer.rows, Pass);
    copied, out := 0, Pass;
    var j := 0;
    while j < |files|
      invariant 0 <= j <= |files|
      invariant Under(InDir(root, files[..j]), path)
      invariant Run(vol.disk, writer.rows, Pass) == MirrorFrom(r0, Keep(InDir(root, files[..j])), path, target)
      invariant copied == |writer.rows| - |r0.rows|
      invariant out == Pass
    {
      NextFile(r0, root, files, j, path, target);
      var n;
      n, out := VisitFile(r0, root, files, j, path, target, vol, writer);
      copied := copied + n;
      if out.Raised? {
        return;
      }
      j := j + 1;
    }
    assert files[..j] == files;
  }

  /** The body of the inner loop on file j of a walk triple: copied and logged when its
      name ends in .txt or .log; an exception leaves the state the whole triple would. */
  method VisitFile(ghost r0: Run, root: Path, files: seq<Entry>, j: nat, path: Path, target: Path,
                   vol: Volume, writer: CsvWriter)
    returns (copied: nat, out: Outcome)
    requires r0.out == Pass && j < |files| && Under(InDir(root, files), path)
    requires Under(InDir(root, files[..j]), path)
    requires Run(vol.disk, writer.rows, Pass) == MirrorFrom(r0, Keep(InDir(root, files[..j])), path, target)
    modifies vol, writer
    ensures Under(InDir(root, files[..j + 1]), path)
    ensures out == Pass ==>
      Run(vol.disk, writer.rows, Pass) == MirrorFrom(r0, Keep(InDir(root, files[..j + 1])), path, target)
    ensures out.Raised? ==>
      Run(vol.disk, writer.rows, out) == MirrorFrom(r0, Keep(InDir(root, files)), path, target)
    ensures copied == |writer.rows| - |old(writer.rows)|
  {
    NextFile(r0, root, files, j, path, target);
    copied, out := 0, Pass;
    if Wanted(files[j].name) {
      var file := Found(root + [files[j].name], files[j].node);
      out := CopyFile(file, path, target, vol, writer);
      if out.Raised? {
        StopInTriple(r0, root, files, j + 1, path, target);
        return;
      }
      copied := 1;
    }
  }

  /** What visiting file j of a walk triple adds to the run. */
  lemma NextFile(r0: Run, root: Path, files: seq<Entry>, j: nat, path: Path, target: Path)
    requires j < |files| && Under(InDir(root, files), path)
    ensures var f := Found(root + [files[j].name], files[j].node);
      && Under(InDir(root, files[..j]), path)
      && Under(InDir(root, files[..j + 1]), path)
      && path < f.path && f.file.File?
      && (!Wanted(files[j].name) ==> Keep(InDir(root, files[..j + 1])) == Keep(InDir(root, files[..j])))
      && (Wanted(files[j].name) ==>
            MirrorFrom(r0, Keep(InDir(root, files[..j + 1])), path, target)
            == MirrorStep(MirrorFrom(r0, Keep(InDir(root, files[..j])), path, target), f, path, target))
  {
    NextFileUnder(root, files, j, path);
    NextFileKept(r0, root, files, j, path, target);
  }

  /** The files before and through the j-th lie below path, and so does the j-th. */
  lemma NextFileUnder(root: Path, files: seq<Entry>, j: nat, path: Path)
    requires j < |files| && Under(InDir(root, files), path)
    ensures Under(InDir(root, files[..j]), path) && Under(InDir(root, files[..j + 1]), path)
    ensures path < root + [files[j].name] && files[j].node.File?
  {
    var f := Found(root + [files[j].name], files[j].node);
    assert files[..j + 1] == files[..j] + [files[j]];
    assert files == files[..j + 1] + files[j + 1..];
    InDirAppend(root, files[..j], [files[j]]);
    InDirAppend(root, files[..j + 1], files[j + 1..]);
    assert f in InDir(root, files);
  }

  /** The j-th file is copied after the wanted files before it exactly when it is wanted. */
  lemma NextFileKept(r0: Run, root: Path, files: seq<Entry>, j: nat, path: Path, target: Path)
    requires j < |files| && Under(InDir(root, files[..j + 1]), path)
    requires Under(InDir(root, files[..j]), path)
    ensures var f := Found(root + [files[j].name], files[j].node);
      && (!Wanted(files[j].name) ==> Keep(InDir(root, files[..j + 1])) == Keep(InDir(root, files[..j])))
      && (Wanted(files[j].name) ==>
            MirrorFrom(r0, Keep(InDir(root, files[..j + 1])), path, target)
            == MirrorStep(MirrorFrom(r0, Keep(InDir(root, files[..j])), path, target), f, path, target))
  {
    var f := Found(root + [files[j].name], files[j].node);
    assert files[..j + 1] == files[..j] + [files[j]];
    InDirAppend(root, files[..j], [files[j]]);
    KeepAppend(InDir(root, files[..j]), [f]);
    assert Last(f.path) == files[j].name;
    assert [f][..0] == [];
    if Wanted(files[j].name) {
      assert f in InDir(root, files[..j + 1]);
      MirrorSnoc(r0, Keep(InDir(root, files[..j])), f, path, target);
    } else {
      assert Keep(InDir(root, files[..j])) + [] == Keep(InDir(root, files[..j]));
    }
  }


  /** An exception at file k of a walk triple leaves the state the whole triple would. */
  lemma StopInTriple(r0: Run, root: Path, files: seq<Entry>, k: nat, path: Path, target: Path)
    requires r0.out == Pass && k <= |files|
    requires Under(InDir(root, files), path) && Under(InDir(root, files[..k]), path)
    requires MirrorFrom(r0, Keep(InDir(root, files[..k])), path, target).out.Raised?
    ensures MirrorFrom(r0, Keep(InDir(root, files)), path, target)
         == MirrorFrom(r0, Keep(InDir(root, files[..k])), path, target)
  {
    assert files == files[..k] + files[k..];
    InDirAppend(root, files[..k], files[k..]);
    KeepAppend(InDir(root, files[..k]), InDir(root, files[k..]));
    StopAtRaise(r0, Keep(InDir(root, files[..k])), Keep(InDir(root, files[k..])), path, target);
  }
}
