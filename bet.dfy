/** bet_extractor.py: the BET log directory C:\BET\Logs copied recursively to
    target_dir\Logs, one manifest row per copied file in depth-first listing order. */
module Bet {
  import opened Wrappers
  import opened SourceTree
  import opened Manifest
  import opened Destination
  import opened Mirror

  /** logs_src */
  const LogsSource: Path := ["BET", "Logs"]

  const ManifestName: string := "bet_files.csv"

  /** logs_dst = os.path.join(target_dir, 'Logs') */
  function LogsTarget(target: Path): Path {
    target + ["Logs"]
  }

  /** What os.listdir(logs_src) finds: a missing directory fails like one that cannot
      be listed for lack of the file. */
  function LogsNode(machine: Node): Node {
    match Find(machine, LogsSource)
    case None => Unreadable(FileNotFound)
    case Some(n) => n
  }

  // ---------------------------------------------------------------------
  // The files the recursion meets

  /** The non-directories below n (at src), in the order the recursion copies them: each
      subdirectory's files before those of its later siblings. */
  function FilesIn(src: Path, n: Node): (fs: seq<Found>)
    ensures Under(fs, src) && Recordable(fs)
    decreases n, 1
  {
    match n
    case Dir(es) => FilesOfItems(src, es, |es|)
    case _ => []
  }

  /** The files met in the first k items of a listing es at src. */
  function FilesOfItems(src: Path, es: seq<Entry>, k: nat): (fs: seq<Found>)
    requires k <= |es|
    ensures Under(fs, src) && Recordable(fs)
    decreases es, k
  {
    if k == 0 then []
    else
      var before := FilesOfItems(src, es, k - 1);
      var e := es[k - 1];
      var s := src + [e.name];
      var mine := if IsDir(e.node) then FilesIn(s, e.node) else [Found(s, e.node)];
      assert forall f :: f in mine ==> s <= f.path;
      assert Under(before + mine, src) by {
        forall f | f in before + mine ensures src < f.path && f.file.File? {
          if f in mine {
            assert src < s <= f.path;
          }
        }
      }
      before + mine
  }

  // ---------------------------------------------------------------------
  // copy_directory_with_metadata as a function of the drive and the manifest

  /** copy_directory_with_metadata(src, dst, csv_writer) from run r, n being what src
      holds: dst created when missing, then the listing of src copied item by item. */
  function TreeOn(r: Run, src: Path, n: Node, dst: Path): Run
    decreases n, 1
  {
    if r.out.Raised? then r
    else
      var mk := EnsureDirOn(r.disk, dst);
      if mk.out.Raised? then Run(mk.disk, r.rows, mk.out)
      else match n
        case Dir(es) => ItemsOn(Run(mk.disk, r.rows, Pass), src, es, |es|, dst)
        case Unreadable(fault) => Run(mk.disk, r.rows, Raised(ListingError(fault)))
        case File(_, _, _, _) => Run(mk.disk, r.rows, Raised(NotADirectoryError))
  }

  /** The loop over the first k items of the listing es of src. */
  function ItemsOn(r: Run, src: Path, es: seq<Entry>, k: nat, dst: Path): Run
    requires k <= |es|
    decreases es, k
  {
    if k == 0 then r
    else
      var m := ItemsOn(r, src, es, k - 1, dst);
      var e := es[k - 1];
      if IsDir(e.node) then TreeOn(m, src + [e.name], e.node, dst + [e.name])
      else FileOn(m, src + [e.name], e.node, dst + [e.name])
  }

  /** The else-branch for a non-directory s: shutil.copy2(s, d), then its row. */
  function FileOn(r: Run, s: Path, n: Node, d: Path): Run
    requires |s| > 0 && n.File?
  {
    if r.out.Raised? then r
    else
      var cp := Copy2On(r.disk, s, n, d);
      if cp.out.Raised? then Run(cp.disk, r.rows, cp.out)
      else Run(cp.disk, r.rows + [RecordOf(Found(s, n))], Pass)
  }

  /** copy_bet_files(target_dir): the drive afterwards, and the error its handler caught
      and logged (Pass when none). */
  function BetOn(machine: Node, disk: Disk, target: Path): Effect {
    var mk := EnsureDirOn(disk, target);
    if mk.out.Raised? then mk
    else
      var csv := target + [ManifestName];
      var op := OpenOn(mk.disk, csv, Csv([]));
      if op.out.Raised? then op
      else
        var r := TreeOn(Run(op.disk, [Header], Pass), LogsSource, LogsNode(machine), LogsTarget(target));
        Effect(r.disk[csv := Csv(r.rows)], r.out)
  }

  // ---------------------------------------------------------------------
  // The rows

  /** The rows the recursion writes are those of a prefix of the files below src, one
      each, in depth-first listing order; all of them when nothing was raised. */
  lemma {:induction false} TreeLogs(r: Run, src: Path, n: Node, dst: Path)
    requires r.out == Pass
    ensures var e := TreeOn(r, src, n, dst);
      var fs := FilesIn(src, n);
      && Appended(r.rows, e.rows, fs)
      && (e.out == Pass ==> |e.rows| == |r.rows| + |fs|)
    decreases n, 1
  {
    var mk := EnsureDirOn(r.disk, dst);
    if mk.out == Pass && n.Dir? {
      ItemsLogs(Run(mk.disk, r.rows, Pass), src, n.entries, |n.entries|, dst);
    } else {
      AppendedNone(r.rows, FilesIn(src, n));
    }
  }

  /** The rows of run e extend those of run r by the rows of fs, all of them when e passed. */
  predicate RowsFor(r: Run, e: Run, fs: seq<Found>)
    requires Recordable(fs)
  {
    Appended(r.rows, e.rows, fs) && (e.out == Pass ==> |e.rows| == |r.rows| + |fs|)
  }

  lemma {:induction false} ItemsLogs(r: Run, src: Path, es: seq<Entry>, k: nat, dst: Path)
    requires r.out == Pass && k <= |es|
    ensures RowsFor(r, ItemsOn(r, src, es, k, dst), FilesOfItems(src, es, k))
    decreases es, k
  {
    if k == 0 {
      NoItemsLogs(r, src, es, dst);
    } else {
      ItemsLogs(r, src, es, k - 1, dst);
      ItemLogs(r, src, es, k, dst);
    }
  }

  lemma NoItemsLogs(r: Run, src: Path, es: seq<Entry>, dst: Path)
    requires r.out == Pass
    ensures RowsFor(r, ItemsOn(r, src, es, 0, dst), FilesOfItems(src, es, 0))
  {
    AppendedNone(r.rows, []);
  }

  /** One more item appends its files' rows after those of the items before it. */
  lemma ItemLogs(r: Run, src: Path, es: seq<Entry>, k: nat, dst: Path)
    requires r.out == Pass && 0 < k <= |es|
    requires RowsFor(r, ItemsOn(r, src, es, k - 1, dst), FilesOfItems(src, es, k - 1))
    ensures RowsFor(r, ItemsOn(r, src, es, k, dst), FilesOfItems(src, es, k))
    decreases es, k - 1, 2
  {
    var j := k - 1;
    var m := ItemsOn(r, src, es, j, dst);
    var before := FilesOfItems(src, es, j);
    var e := es[j];
    var s := src + [e.name];
    var mine := if IsDir(e.node) then FilesIn(s, e.node) else [Found(s, e.node)];
    assert FilesOfItems(src, es, k) == before + mine;
    if m.out.Raised? {
      AppendedMore(r.rows, m.rows, before, mine);
    } else {
      if IsDir(e.node) {
        TreeLogs(m, s, e.node, dst + [e.name]);
      } else {
        FileLogs(m, s, e.node, dst + [e.name]);
      }
      AppendedThen(r.rows, m.rows, ItemsOn(r, src, es, k, dst).rows, before, mine);
    }
  }

  lemma FileLogs(r: Run, s: Path, n: Node, d: Path)
    requires r.out == Pass && |s| > 0 && n.File?
    ensures Recordable([Found(s, n)])
    ensures var e := FileOn(r, s, n, d);
      && Appended(r.rows, e.rows, [Found(s, n)])
      && (e.out == Pass ==> |e.rows| == |r.rows| + 1)
  {
    var fs := [Found(s, n)];
    assert fs[..0] == [] && fs[..1] == fs;
  }

  /** Once the manifest is open it ends up holding the header, then one row per copied
      file in depth-first listing order; all files of C:\BET\Logs when nothing was caught. */
  lemma BetManifest(machine: Node, disk: Disk, target: Path)
    requires EnsureDirOn(disk, target).out == Pass
    requires OpenOn(EnsureDirOn(disk, target).disk, target + [ManifestName], Csv([])).out == Pass
    ensures var e := BetOn(machine, disk, target);
      var fs := FilesIn(LogsSource, LogsNode(machine));
      && target + [ManifestName] in e.disk
      && e.disk[target + [ManifestName]].Csv?
      && var rows := e.disk[target + [ManifestName]].rows;
      && 1 <= |rows| <= 1 + |fs|
      && rows == [Header] + Records(fs[..|rows| - 1])
      && (e.out == Pass ==> |rows| == 1 + |fs|)
  {
    var op := OpenOn(EnsureDirOn(disk, target).disk, target + [ManifestName], Csv([]));
    TreeLogs(Run(op.disk, [Header], Pass), LogsSource, LogsNode(machine), LogsTarget(target));
  }

  /** Without C:\BET\Logs, os.listdir(logs_src) raises FileNotFoundError inside
      copy_directory_with_metadata, after target_dir\Logs was created: only the header
      reaches bet_files.csv, and the exception leaves copy_bet_files to main()'s handler. */
  lemma MissingLogsRaises(machine: Node, disk: Disk, target: Path)
    requires Find(machine, LogsSource).None?
    requires forall q :: q <= target && q in disk ==> IsFolder(disk, q)
    requires forall q :: q in disk ==> !(target < q)
    ensures var e := BetOn(machine, disk, target);
      && e.out == Raised(FileNotFoundError)
      && IsFolder(e.disk, LogsTarget(target))
      && target + [ManifestName] in e.disk && e.disk[target + [ManifestName]] == Csv([Header])
  {
    var csv := target + [ManifestName];
    var logs := LogsTarget(target);
    OpenReady(disk, target);
    var op := OpenOn(EnsureDirOn(disk, target).disk, csv, Csv([]));
    MakeDirsPass(op.disk, logs);
    assert LogsNode(machine) == Unreadable(FileNotFound);
    var r := TreeOn(Run(op.disk, [Header], Pass), LogsSource, LogsNode(machine), logs);
    assert r == Run(EnsureDirOn(op.disk, logs).disk, [Header], Raised(FileNotFoundError));
    assert csv != logs;
  }

  /** The first two steps of copy_bet_files pass on a drive with nothing below target,
      and leave the way to target_dir\Logs clear of files. */
  lemma OpenReady(disk: Disk, target: Path)
    requires forall q :: q <= target && q in disk ==> IsFolder(disk, q)
    requires forall q :: q in disk ==> !(target < q)
    ensures var mk := EnsureDirOn(disk, target);
      var op := OpenOn(mk.disk, target + [ManifestName], Csv([]));
      && mk.out == Pass && op.out == Pass
      && LogsTarget(target) !in op.disk
      && forall q :: q <= LogsTarget(target) && q in op.disk ==> IsFolder(op.disk, q)
  {
    var csv := target + [ManifestName];
    var logs := LogsTarget(target);
    EnsureDirPass(disk, target);
    var mk := EnsureDirOn(disk, target);
    assert !IsFolder(mk.disk, csv) by {
      assert !(csv <= target);
      assert csv !in disk;
    }
    var op := OpenOn(mk.disk, csv, Csv([]));
    assert op.disk == mk.disk[csv := Csv([])];
    forall q | q <= logs && q in op.disk ensures IsFolder(op.disk, q) {
      if q != logs {
        assert q <= target by {
          assert q == logs[..|q|];
        }
        assert q != csv;
      }
    }
  }

  /** Any exception ends the whole copy: once raised, no later item changes anything. */
  lemma {:induction false} ItemsStop(r: Run, src: Path, es: seq<Entry>, k: nat, j: nat, dst: Path)
    requires k <= j <= |es| && ItemsOn(r, src, es, k, dst).out.Raised?
    ensures ItemsOn(r, src, es, j, dst) == ItemsOn(r, src, es, k, dst)
    decreases j
  {
    if j > k {
      ItemsStop(r, src, es, k, j - 1, dst);
    }
  }

  // ---------------------------------------------------------------------
  // Where the copies land

  /** Every file of fs is on the drive at dst joined with its path relative to src,
      holding its bytes. */
  predicate Mirrors(d: Disk, fs: seq<Found>, src: Path, dst: Path)
    requires Under(fs, src)
  {
    forall f :: f in fs ==> Retarget(f.path, src, dst) in d && d[Retarget(f.path, src, dst)] == Copied(f.file.data)
  }

  lemma KeptTrans(a: Disk, b: Disk, c: Disk)
    requires Kept(a, b) && Kept(b, c)
    ensures Kept(a, c)
  {
  }

  /** os.path.join(dst, item) mirrors os.path.join(src, item), one level down. */
  lemma RetargetChild(p: Path, src: Path, dst: Path, name: string)
    requires src + [name] <= p && |src + [name]| < |p|
    ensures Retarget(p, src + [name], dst + [name]) == Retarget(p, src, dst)
  {
    assert p[|src|..] == [name] + p[|src| + 1..];
  }

  /** With nothing at or below dst beforehand, the recursion keeps whatever the drive
      held, adds only dst, its missing parents and paths below dst, leaves dst a
      directory once created, and when nothing was raised every file below src is at
      dst joined with its path relative to src. */
  lemma {:induction false} TreeLands(r: Run, src: Path, n: Node, dst: Path)
    requires r.out == Pass && WellFormed(n)
    requires forall q :: q in r.disk ==> !(dst <= q)
    ensures var e := TreeOn(r, src, n, dst);
      && Kept(r.disk, e.disk)
      && (forall q :: q in e.disk && q !in r.disk ==> dst < q || (q != [] && q <= dst))
      && (EnsureDirOn(r.disk, dst).out == Pass ==> IsFolder(e.disk, dst))
      && (e.out == Pass ==> Mirrors(e.disk, FilesIn(src, n), src, dst))
    decreases n, 1
  {
    var mk := EnsureDirOn(r.disk, dst);
    MakeDirsOnlyAdds(r.disk, dst);
    MakeDirsPass(r.disk, dst);
    assert dst !in r.disk;
    assert Kept(r.disk, mk.disk);
    if mk.out == Pass {
      assert forall q :: q <= dst ==> IsFolder(mk.disk, q);
      if n.Dir? {
        var es := n.entries;
        ItemsLands(Run(mk.disk, r.rows, Pass), src, es, |es|, dst);
        var e := ItemsOn(Run(mk.disk, r.rows, Pass), src, es, |es|, dst);
        KeptTrans(r.disk, mk.disk, e.disk);
        forall q | q in e.disk && q !in mk.disk ensures dst < q {
          var i :| 0 <= i < |es| && dst + [es[i].name] <= q;
        }
      }
    }
  }

  /** Every path added below dst lies under the target of one of the first k items. */
  predicate AddedUnder(d0: Disk, d: Disk, dst: Path, es: seq<Entry>, k: nat)
    requires k <= |es|
  {
    forall q :: q in d && q !in d0 ==> exists i :: 0 <= i < k && dst + [es[i].name] <= q
  }

  /** What the copy of the first k items leaves: nothing earlier is altered, everything
      new lies under one of their targets, and on success every file found is mirrored. */
  predicate ItemsLanded(r: Run, e: Run, src: Path, es: seq<Entry>, k: nat, dst: Path)
    requires k <= |es|
  {
    && Kept(r.disk, e.disk)
    && AddedUnder(r.disk, e.disk, dst, es, k)
    && (e.out == Pass ==> Mirrors(e.disk, FilesOfItems(src, es, k), src, dst))
  }

  lemma {:induction false} ItemsLands(r: Run, src: Path, es: seq<Entry>, k: nat, dst: Path)
    requires r.out == Pass && k <= |es|
    requires DistinctNames(es) && forall i :: 0 <= i < |es| ==> WellFormed(es[i].node)
    requires forall q :: q <= dst ==> IsFolder(r.disk, q)
    requires forall q :: q in r.disk ==> !(dst < q)
    ensures ItemsLanded(r, ItemsOn(r, src, es, k, dst), src, es, k, dst)
    decreases es, k
  {
    if k > 0 {
      ItemsLands(r, src, es, k - 1, dst);
      ItemLands(r, ItemsOn(r, src, es, k - 1, dst), src, es, k - 1, dst);
    }
  }

  /** One more item keeps ItemsLanded. */
  lemma ItemLands(r: Run, m: Run, src: Path, es: seq<Entry>, j: nat, dst: Path)
    requires r.out == Pass && j < |es| && m == ItemsOn(r, src, es, j, dst)
    requires DistinctNames(es) && forall i :: 0 <= i < |es| ==> WellFormed(es[i].node)
    requires forall q :: q <= dst ==> IsFolder(r.disk, q)
    requires forall q :: q in r.disk ==> !(dst < q)
    requires ItemsLanded(r, m, src, es, j, dst)
    ensures ItemsLanded(r, ItemsOn(r, src, es, j + 1, dst), src, es, j + 1, dst)
    decreases es, j, 2
  {
    if m.out == Pass {
      ChildFresh(r, m, es, j, dst);
      if IsDir(es[j].node) {
        DirLands(r, m, src, es, j, dst);
      } else {
        FileLands(r, m, src, es, j, dst);
      }
    } else {
      var e := ItemsOn(r, src, es, j + 1, dst);
      var s := src + [es[j].name];
      if IsDir(es[j].node) {
        assert e == TreeOn(m, s, es[j].node, dst + [es[j].name]) == m;
      } else {
        assert e == FileOn(m, s, es[j].node, dst + [es[j].name]) == m;
      }
      assert AddedUnder(r.disk, e.disk, dst, es, j + 1);
    }
  }

  /** Nothing the earlier items added lies at or below the next item's target. */
  lemma ChildFresh(r: Run, m: Run, es: seq<Entry>, j: nat, dst: Path)
    requires j < |es| && DistinctNames(es)
    requires forall q :: q in r.disk ==> !(dst < q)
    requires AddedUnder(r.disk, m.disk, dst, es, j)
    ensures forall q :: q in m.disk ==> !(dst + [es[j].name] <= q)
  {
    var d := dst + [es[j].name];
    assert dst < d;
    forall q | q in m.disk ensures !(d <= q) {
      if q !in r.disk {
        var i :| 0 <= i < j && dst + [es[i].name] <= q;
        assert q[|dst|] == es[i].name;
        assert es[i].name != es[j].name;
      }
    }
  }

  /** Item j a directory: the recursive call's files land below dst/item. */
  lemma DirLands(r: Run, m: Run, src: Path, es: seq<Entry>, j: nat, dst: Path)
    requires j < |es| && m == ItemsOn(r, src, es, j, dst) && IsDir(es[j].node) && WellFormed(es[j].node) && m.out == Pass
    requires forall q :: q <= dst ==> IsFolder(r.disk, q)
    requires ItemsLanded(r, m, src, es, j, dst)
    requires forall q :: q in m.disk ==> !(dst + [es[j].name] <= q)
    ensures ItemsLanded(r, ItemsOn(r, src, es, j + 1, dst), src, es, j + 1, dst)
    decreases es, j, 1
  {
    var it := es[j];
    var s, d := src + [it.name], dst + [it.name];
    var e := TreeOn(m, s, it.node, d);
    assert ItemsOn(r, src, es, j + 1, dst) == e;
    TreeLands(m, s, it.node, d);
    DirAdds(r, m, e, src, es, j, dst);
  }

  /** The drive after copying the j-th item, a directory, from one where the first j
      landed. */
  lemma DirAdds(r: Run, m: Run, e: Run, src: Path, es: seq<Entry>, j: nat, dst: Path)
    requires j < |es| && IsDir(es[j].node) && m.out == Pass
    requires forall q :: q <= dst ==> IsFolder(r.disk, q)
    requires ItemsLanded(r, m, src, es, j, dst)
    requires Kept(m.disk, e.disk)
    requires forall q :: q in e.disk && q !in m.disk ==> dst + [es[j].name] < q || (q != [] && q <= dst + [es[j].name])
    requires e.out == Pass ==> Mirrors(e.disk, FilesIn(src + [es[j].name], es[j].node), src + [es[j].name], dst + [es[j].name])
    ensures ItemsLanded(r, e, src, es, j + 1, dst)
  {
    var it := es[j];
    var s, d := src + [it.name], dst + [it.name];
    KeptTrans(r.disk, m.disk, e.disk);
    forall q | q in e.disk && q !in r.disk
      ensures exists i :: 0 <= i < j + 1 && dst + [es[i].name] <= q
    {
      if q !in m.disk {
        assert q <= d && q != d ==> q <= dst;
        assert q <= dst ==> IsFolder(r.disk, q);
        assert d <= q;
      }
    }
    if e.out == Pass {
      var before := FilesOfItems(src, es, j);
      var mine := FilesIn(s, it.node);
      assert FilesOfItems(src, es, j + 1) == before + mine;
      forall f: Found | f in before + mine
        ensures Retarget(f.path, src, dst) in e.disk && e.disk[Retarget(f.path, src, dst)] == Copied(f.file.data)
      {
        if f in mine {
          RetargetChild(f.path, src, dst, it.name);
        }
      }
    }
  }


  /** Item j not a directory: shutil.copy2 puts it at dst/item. */
  lemma FileLands(r: Run, m: Run, src: Path, es: seq<Entry>, j: nat, dst: Path)
    requires j < |es| && m == ItemsOn(r, src, es, j, dst) && !IsDir(es[j].node) && m.out == Pass
    requires forall q :: q <= dst ==> IsFolder(r.disk, q)
    requires ItemsLanded(r, m, src, es, j, dst)
    requires forall q :: q in m.disk ==> !(dst + [es[j].name] <= q)
    ensures ItemsLanded(r, ItemsOn(r, src, es, j + 1, dst), src, es, j + 1, dst)
  {
    var it := es[j];
    var s, d := src + [it.name], dst + [it.name];
    var e := FileOn(m, s, it.node, d);
    assert ItemsOn(r, src, es, j + 1, dst) == e;
    assert d !in m.disk by {
      assert d <= d;
    }
    assert IsFolder(m.disk, dst) by {
      assert dst <= dst;
      assert IsFolder(r.disk, dst);
    }
    FileStep(m, s, it.node, d);
    FileAdds(r, m, e, src, es, j, dst);
  }

  /** The drive after copying the j-th item, a file, from one where the first j landed. */
  lemma FileAdds(r: Run, m: Run, e: Run, src: Path, es: seq<Entry>, j: nat, dst: Path)
    requires j < |es| && !IsDir(es[j].node) && m.out == Pass
    requires ItemsLanded(r, m, src, es, j, dst)
    requires Kept(m.disk, e.disk)
    requires forall q :: q in e.disk && q !in m.disk ==> q == dst + [es[j].name]
    requires e.out == Pass ==> e.disk == m.disk[dst + [es[j].name] := Copied(es[j].node.data)]
    ensures ItemsLanded(r, e, src, es, j + 1, dst)
  {
    var s, d := src + [es[j].name], dst + [es[j].name];
    KeptTrans(r.disk, m.disk, e.disk);
    if e.out == Pass {
      var before := FilesOfItems(src, es, j);
      assert FilesOfItems(src, es, j + 1) == before + [Found(s, es[j].node)];
      assert Retarget(s, src, dst) == d;
    }
  }

  /** shutil.copy2 onto a fresh path in an existing directory creates exactly that file. */
  lemma FileStep(m: Run, s: Path, n: Node, d: Path)
    requires m.out == Pass && |s| > 0 && n.File? && |d| > 0
    requires d !in m.disk && IsFolder(m.disk, DirName(d))
    ensures var e := FileOn(m, s, n, d);
      && (e.out == Pass <==> n.readable)
      && e.disk == (if e.out == Pass then m.disk[d := Copied(n.data)] else m.disk)
      && Kept(m.disk, e.disk)
      && forall q :: q in e.disk && q !in m.disk ==> q == d
  {
  }

  /** With nothing below the target directory beforehand, nothing that was on the drive
      is altered, and when nothing was caught every file below C:\BET\Logs is at
      target_dir\Logs joined with its path relative to C:\BET\Logs. */
  lemma BetLands(machine: Node, disk: Disk, target: Path)
    requires WellFormed(machine)
    requires forall q :: q in disk ==> !(target < q)
    ensures var e := BetOn(machine, disk, target);
      && Kept(disk, e.disk)
      && (e.out == Pass ==>
            Mirrors(e.disk, FilesIn(LogsSource, LogsNode(machine)), LogsSource, LogsTarget(target)))
  {
    var csv := target + [ManifestName];
    var mk := EnsureDirOn(disk, target);
    MakeDirsOnlyAdds(disk, target);
    assert Kept(disk, mk.disk);
    if mk.out == Pass {
      var op := OpenOn(mk.disk, csv, Csv([]));
      if op.out == Pass {
        assert csv !in disk by {
          assert target < csv;
        }
        LogsLand(machine, disk, target, op.disk);
      }
    }
  }

  /** The recursion and the closing of the manifest, from the drive with the manifest open. */
  lemma LogsLand(machine: Node, disk: Disk, target: Path, start: Disk)
    requires WellFormed(machine)
    requires forall q :: q in disk ==> !(target < q)
    requires target + [ManifestName] !in disk
    requires start == EnsureDirOn(disk, target).disk[target + [ManifestName] := Csv([])]
    requires Kept(disk, EnsureDirOn(disk, target).disk)
    requires forall q :: q in EnsureDirOn(disk, target).disk && q !in disk ==> q <= target
    ensures var r := TreeOn(Run(start, [Header], Pass), LogsSource, LogsNode(machine), LogsTarget(target));
      var d := r.disk[target + [ManifestName] := Csv(r.rows)];
      && Kept(disk, d)
      && (r.out == Pass ==> Mirrors(d, FilesIn(LogsSource, LogsNode(machine)), LogsSource, LogsTarget(target)))
  {
    var csv := target + [ManifestName];
    var dst := LogsTarget(target);
    var n := LogsNode(machine);
    if Find(machine, LogsSource).Some? {
      FindWellFormed(machine, LogsSource);
    }
    assert WellFormed(n);
    StartClear(disk, target, start);
    var r0 := Run(start, [Header], Pass);
    TreeLands(r0, LogsSource, n, dst);
    LogsClose(disk, start, TreeOn(r0, LogsSource, n, dst), target, FilesIn(LogsSource, n));
  }

  /** Writing the manifest last keeps what the copy kept and mirrored. */
  lemma LogsClose(disk: Disk, start: Disk, e: Run, target: Path, fs: seq<Found>)
    requires Kept(disk, start) && Kept(start, e.disk)
    requires target + [ManifestName] !in disk
    requires Under(fs, LogsSource)
    requires e.out == Pass ==> Mirrors(e.disk, fs, LogsSource, LogsTarget(target))
    ensures var d := e.disk[target + [ManifestName] := Csv(e.rows)];
      && Kept(disk, d)
      && (e.out == Pass ==> Mirrors(d, fs, LogsSource, LogsTarget(target)))
  {
    KeptTrans(disk, start, e.disk);
    if e.out == Pass {
      MirrorsBesideManifest(e.disk, fs, target, Csv(e.rows));
    }
  }

  /** The drive with the manifest open keeps what was there and has nothing at or
      below target_dir\Logs. */
  lemma StartClear(disk: Disk, target: Path, start: Disk)
    requires forall q :: q in disk ==> !(target < q)
    requires target + [ManifestName] !in disk
    requires start == EnsureDirOn(disk, target).disk[target + [ManifestName] := Csv([])]
    requires Kept(disk, EnsureDirOn(disk, target).disk)
    requires forall q :: q in EnsureDirOn(disk, target).disk && q !in disk ==> q <= target
    ensures Kept(disk, start)
    ensures forall q :: q in start ==> !(LogsTarget(target) <= q)
  {
    var csv := target + [ManifestName];
    var dst := LogsTarget(target);
    forall q | q in start ensures !(dst <= q) {
      if q == csv {
        assert csv[|target|] != dst[|target|];
      } else if q in disk {
        assert !(target < q);
      } else {
        assert q <= target;
      }
    }
  }

  /** Writing the manifest beside the Logs copy leaves the copy in place. */
  lemma MirrorsBesideManifest(d: Disk, fs: seq<Found>, target: Path, content: Obj)
    requires Under(fs, LogsSource) && Mirrors(d, fs, LogsSource, LogsTarget(target))
    ensures Mirrors(d[target + [ManifestName] := content], fs, LogsSource, LogsTarget(target))
  {
    var csv := target + [ManifestName];
    var dst := LogsTarget(target);
    forall f | f in fs ensures Retarget(f.path, LogsSource, dst) != csv {
      assert dst < Retarget(f.path, LogsSource, dst);
      assert csv[|target|] != dst[|target|];
    }
  }

  // ---------------------------------------------------------------------
  // The procedures

  /** copy_bet_files(target_dir): creates the target directory when missing, opens the
      manifest, writes its header and copies C:\BET\Logs to target_dir\Logs; the handler
      catches any exception and logs it, returned here as `caught`. The manifest is
      closed, holding the rows written so far, however the copy ends. */
  method CopyBetFiles(machine: Node, target: Path, vol: Volume) returns (caught: Outcome)
    modifies vol
    ensures Effect(vol.disk, caught) == BetOn(machine, old(vol.disk), target)
  {
    caught := vol.EnsureDir(target);
    if caught.Raised? {
      return;
    }
    ghost var made := vol.disk;
    var csv := target + [ManifestName];
    caught := vol.Open(csv, Csv([]));
    if caught.Raised? {
      return;
    }
    assert vol.disk == OpenOn(made, csv, Csv([])).disk;
    var writer := new CsvWriter();
    writer.WriteRow(Header);
    assert Run(vol.disk, writer.rows, Pass)
        == Run(OpenOn(EnsureDirOn(old(vol.disk), target).disk, csv, Csv([])).disk, [Header], Pass);
    caught := CopyDirectoryWithMetadata(LogsSource, LogsNode(machine), LogsTarget(target), vol, writer);
    vol.Close(csv, Csv(writer.rows));
  }

  /** copy_directory_with_metadata(src, dst, csv_writer), n being what src holds: any
      exception leaves through `out` and ends the whole copy. */
  method CopyDirectoryWithMetadata(src: Path, n: Node, dst: Path, vol: Volume, writer: CsvWriter)
    returns (out: Outcome)
    modifies vol, writer
    ensures Run(vol.disk, writer.rows, out) == TreeOn(Run(old(vol.disk), old(writer.rows), Pass), src, n, dst)
    decreases n, 2
  {
    out := vol.EnsureDir(dst);
    if out.Raised? {
      return;
    }
    match n {
      case Unreadable(fault) =>
        out := Raised(ListingError(fault));
      case File(_, _, _, _) =>
        out := Raised(NotADirectoryError);
      case Dir(es) =>
        out := CopyItems(src, n, dst, vol, writer);
    }
  }

  /** The loop over os.listdir(src), stopped by the first exception. */
  method CopyItems(src: Path, n: Node, dst: Path, vol: Volume, writer: CsvWriter)
    returns (out: Outcome)
    requires n.Dir?
    modifies vol, writer
    ensures Run(vol.disk, writer.rows, out) == ItemsOn(Run(old(vol.disk), old(writer.rows), Pass), src, n.entries, |n.entries|, dst)
    decreases n, 1
  {
    var es := n.entries;
    ghost var r1 := Run(vol.disk, writer.rows, Pass);
    out := Pass;
    var k := 0;
    while k < |es|
      invariant 0 <= k <= |es|
      invariant Run(vol.disk, writer.rows, out) == ItemsOn(r1, src, es, k, dst)
      invariant out == Pass
    {
      var item := es[k];
      assert item in n.entries;
      out := CopyItem(src + [item.name], item.node, dst + [item.name], vol, writer);
      assert Run(vol.disk, writer.rows, out) == ItemsOn(r1, src, es, k + 1, dst);
      if out.Raised? {
        ItemsStop(r1, src, es, k + 1, |es|, dst);
        return;
      }
      k := k + 1;
    }
  }

  /** One turn of the loop over the listing: recurse into a directory, copy a file and
      write its row. */
  method CopyItem(s: Path, node: Node, d: Path, vol: Volume, writer: CsvWriter) returns (out: Outcome)
    requires |s| > 0 && |d| > 0
    modifies vol, writer
    ensures Run(vol.disk, writer.rows, out)
         == if IsDir(node) then TreeOn(Run(old(vol.disk), old(writer.rows), Pass), s, node, d)
            else FileOn(Run(old(vol.disk), old(writer.rows), Pass), s, node, d)
    decreases node, 3
  {
    if IsDir(node) {
      out := CopyDirectoryWithMetadata(s, node, d, vol, writer);
    } else {
      out := vol.Copy2(s, node, d);
      if out == Pass {
        writer.WriteRow(RecordOf(Found(s, node)));
      }
    }
  }
}
