/** main.py: the case folders, the sealing of each module's export folder into a zip
    archive, and the run of the selected modules in their fixed order, each behind its
    own handler. */
module Orchestrator {
  import opened Wrappers
  import opened SourceTree
  import opened Destination
  import Prefetch
  import DirTree
  import InstalledPrograms
  import TeamViewer
  import Bet
  import BrowserHistory

  /** What the collectors read: the drive, the resolved %WINDIR%, %LOCALAPPDATA% and
      %APPDATA% folders, and save_running_processes, which is not modelled and is given
      as its effect on the destination drive. */
  datatype Host = Host(
    root: Node,
    windir: Path,
    local: Path,
    roaming: Path,
    saveProcesses: (Disk, Path) -> Effect)

  /** One line of the extraction log: a module that ran, and what its handler caught. */
  datatype Ran = Ran(name: string, out: Outcome)

  /** The drive and the log after some of the modules. */
  datatype Session = Session(disk: Disk, log: seq<Ran>)

  /** The modules in the order main() tries them. */
  const Order: seq<string> :=
    ["prefetch", "dir_tree", "processes", "installed_programs", "teamviewer", "bet", "browser_history"]

  /** The folder each module exports to, and the base name of its archive (the same). */
  function ExportName(name: string): string {
    if name == "prefetch" then "Prefetch_export"
    else if name == "dir_tree" then "DirTree_export"
    else if name == "processes" then "Processes_export"
    else if name == "teamviewer" then "TeamViewer_export"
    else if name == "bet" then "BET_export"
    else "BrowserHistory_export"
  }

  const ProgramFilesSource: Path := ["Program Files"]
  const ProgramFilesX86Source: Path := ["Program Files (x86)"]
  const ProgramFilesName: string := "ProgramFiles"
  const ProgramFilesX86Name: string := "ProgramFiles_X86"

  // ---------------------------------------------------------------------
  // create_target_folder and create_log_folder

  /** os.path.join(base_dir, f"{case_name}_{current_date}", device_name), where base_dir
      is the resolved `cases` folder and the date is given. */
  function CaseDevice(cases: Path, caseName: string, date: string, device: string): Path {
    cases + [caseName + "_" + date, device]
  }

  /** cases/<case>_<date>/<device>/extraction_results: three levels below `cases`. */
  function TargetDir(cases: Path, caseName: string, date: string, device: string): (p: Path)
    ensures |p| == |cases| + 3 && p[..|cases|] == cases
    ensures p[|cases|] == caseName + "_" + date && p[|cases| + 1] == device && p[|cases| + 2] == "extraction_results"
  {
    CaseDevice(cases, caseName, date, device) + ["extraction_results"]
  }

  /** cases/<case>_<date>/<device>/logs: three levels below `cases`. */
  function LogDir(cases: Path, caseName: string, date: string, device: string): (p: Path)
    ensures |p| == |cases| + 3 && p[..|cases|] == cases
    ensures p[|cases|] == caseName + "_" + date && p[|cases| + 1] == device && p[|cases| + 2] == "logs"
  {
    CaseDevice(cases, caseName, date, device) + ["logs"]
  }

  /** The results and the logs lie three levels below `cases`, neither inside the other.
      create_target_folder and create_log_folder each read the clock, so they share one
      case folder exactly when both reads give the same date (a run that crosses
      midnight gets two). */
  lemma ResultsBesideLogs(cases: Path, caseName: string, targetDate: string, logDate: string, device: string)
    ensures var t := TargetDir(cases, caseName, targetDate, device);
      var l := LogDir(cases, caseName, logDate, device);
      && |t| == |l| == |cases| + 3
      && t[..|cases|] == cases && l[..|cases|] == cases
      && (DirName(t) == DirName(l) <==> targetDate == logDate)
      && !(t <= l) && !(l <= t)
  {
    var t := TargetDir(cases, caseName, targetDate, device);
    var l := LogDir(cases, caseName, logDate, device);
    assert t[|t| - 1] != l[|l| - 1];
    if DirName(t) == DirName(l) {
      var a, b := caseName + "_" + targetDate, caseName + "_" + logDate;
      assert a == DirName(t)[|cases|] == DirName(l)[|cases|] == b;
      assert a[|caseName| + 1..] == targetDate && b[|caseName| + 1..] == logDate;
    }
  }

  /** create_target_folder(case_name, device_name) */
  method CreateTargetFolder(cases: Path, caseName: string, date: string, device: string, vol: Volume)
    returns (target: Path, out: Outcome)
    modifies vol
    ensures target == TargetDir(cases, caseName, date, device)
    ensures Effect(vol.disk, out) == EnsureDirOn(old(vol.disk), target)
  {
    target := CaseDevice(cases, caseName, date, device) + ["extraction_results"];
    out := vol.EnsureDir(target);
  }

  /** create_log_folder(case_name, device_name) */
  method CreateLogFolder(cases: Path, caseName: string, date: string, device: string, vol: Volume)
    returns (logs: Path, out: Outcome)
    modifies vol
    ensures logs == LogDir(cases, caseName, date, device)
    ensures Effect(vol.disk, out) == EnsureDirOn(old(vol.disk), logs)
  {
    logs := CaseDevice(cases, caseName, date, device) + ["logs"];
    out := vol.EnsureDir(logs);
  }

  // ---------------------------------------------------------------------
  // zip_directory

  /** zip_directory(directory_path, zip_name): make_archive first; rmtree only after it
      returned. */
  function ZipOn(disk: Disk, dir: Path, base: Path, fails: set<Path>): Effect
    requires |base| > 0
  {
    var z := MakeArchiveOn(disk, base, dir, base in fails);
    if z.out.Raised? then z else Effect(RmTreeOn(z.disk, dir), Pass)
  }

  /** When archiving raises, nothing is removed; when it passes, the archive holds what
      was below the directory, the directory and everything below it are gone, and no
      other path lost its content. */
  lemma ZipSeals(disk: Disk, dir: Path, base: Path, fails: set<Path>)
    requires |base| > 0 && !(dir <= ZipPath(base))
    ensures var e := ZipOn(disk, dir, base, fails);
      && (e.out.Raised? ==> forall q :: q in disk ==> q in e.disk && e.disk[q] == disk[q])
      && (e.out == Pass ==>
            && IsFolder(disk, dir) && base !in fails
            && ZipPath(base) in e.disk
            && e.disk[ZipPath(base)] == Zip(Snapshot(disk, dir))
            && (forall q :: q in e.disk ==> !(dir <= q))
            && (forall q :: q in disk && !(dir <= q) && q != ZipPath(base) ==> q in e.disk && e.disk[q] == disk[q]))
    ensures var e := ZipOn(disk, dir, base, fails);
      forall q :: q in e.disk && q !in disk ==> q <= ZipPath(base)
  {
    var zip := ZipPath(base);
    var mk := EnsureDirOn(disk, DirName(zip));
    MakeDirsOnlyAdds(disk, DirName(zip));
    assert forall q :: q in mk.disk && q !in disk ==> q <= DirName(zip);
    forall q | q in mk.disk && q !in disk ensures q <= zip {
      PrefixTransitive(q, DirName(zip), zip);
    }
    if IsFolder(disk, dir) && mk.out == Pass && !IsFolder(mk.disk, zip) && base !in fails {
      forall q | q in mk.disk && q !in disk ensures !(dir <= q) {
        PrefixTransitive(q, DirName(zip), zip);
        PrefixTransitive(dir, q, zip);
      }
      SnapshotAgrees(disk, mk.disk, dir);
    }
  }

  lemma PrefixTransitive(a: Path, b: Path, c: Path)
    ensures a <= b && b <= c ==> a <= c
  {
    if a <= b && b <= c {
      assert c[..|b|][..|a|] == c[..|a|];
    }
  }

  /** Two drives that agree at and below root give the same archive contents. */
  lemma SnapshotAgrees(d1: Disk, d2: Disk, root: Path)
    requires forall q :: q in d1 && root <= q ==> q in d2 && d2[q] == d1[q]
    requires forall q :: q in d2 && root <= q ==> q in d1
    ensures Snapshot(d1, root) == Snapshot(d2, root)
  {
    var z1 := Snapshot(d1, root);
    var z2 := Snapshot(d2, root);
    forall r | r in z2 ensures r in z1 {
      assert root <= root + r;
    }
    forall r | r in z1 ensures r in z2 && z2[r] == z1[r] {
      assert root <= root + r;
    }
    assert z1.Keys == z2.Keys;
  }

  /** Two paths of one length that both lead to q are the same path. */
  lemma SameLevel(a: Path, b: Path, q: Path)
    requires |a| == |b| && a <= q && b <= q
    ensures a == b
  {
    assert a == q[..|a|] && b == q[..|b|];
  }

  /** zip_directory(directory_path, zip_name) */
  method ZipDirectory(dir: Path, base: Path, vol: Volume) returns (out: Outcome)
    requires |base| > 0
    modifies vol
    ensures Effect(vol.disk, out) == ZipOn(old(vol.disk), dir, base, vol.archiveFails)
  {
    out := vol.MakeArchive(base, dir);
    if out.Raised? {
      return;
    }
    vol.RmTree(dir);
  }

  // ---------------------------------------------------------------------
  // The modules

  /** The collector a module calls on its export folder dir. What the collector's own
      handler catches does not reach main(). */
  function CollectOn(name: string, h: Host, disk: Disk, dir: Path): Effect {
    if name == "prefetch" then Effect(Prefetch.PrefetchOn(h.root, h.windir, disk, dir).disk, Pass)
    else if name == "dir_tree" then DirTree.ExtractOn(h.root, disk, dir)
    else if name == "processes" then h.saveProcesses(disk, dir)
    else if name == "teamviewer" then Effect(TeamViewer.TeamViewerOn(h.root, disk, dir).disk, Pass)
    else if name == "bet" then Effect(Bet.BetOn(h.root, disk, dir).disk, Pass)
    else Effect(BrowserHistory.BrowserHistoriesOn(h.root, h.local, h.roaming, disk, dir).disk, Pass)
  }

  /** The try block of one module: collect into target/<export>, then seal it. */
  function TaskOn(name: string, h: Host, disk: Disk, target: Path, fails: set<Path>): Effect {
    if name == "installed_programs" then InstalledOn(h, disk, target, fails)
    else
      var dir := target + [ExportName(name)];
      var c := CollectOn(name, h, disk, dir);
      if c.out.Raised? then c else ZipOn(c.disk, dir, dir, fails)
  }

  /** The installed_programs block: both skeletons first, Program Files then Program
      Files (x86), then each sealed on its own. */
  function InstalledOn(h: Host, disk: Disk, target: Path, fails: set<Path>): Effect {
    var pf := target + [ProgramFilesName];
    var pf86 := target + [ProgramFilesX86Name];
    var c1 := InstalledPrograms.CopyTopLevelOn(h.root, ProgramFilesSource, disk, pf);
    if c1.out.Raised? then c1
    else
      var c2 := InstalledPrograms.CopyTopLevelOn(h.root, ProgramFilesX86Source, c1.disk, pf86);
      if c2.out.Raised? then c2
      else
        var z1 := ZipOn(c2.disk, pf, pf, fails);
        if z1.out.Raised? then z1 else ZipOn(z1.disk, pf86, pf86, fails)
  }

  /** `if '<name>' in selected_modules: try: ... except Exception as e: logging.error(...)` */
  function StepOn(s: Session, name: string, selected: seq<string>, h: Host, target: Path, fails: set<Path>): Session {
    if name in selected then
      var e := TaskOn(name, h, s.disk, target, fails);
      Session(e.disk, s.log + [Ran(name, e.out)])
    else s
  }

  /** The first k modules of Order. */
  function TasksOn(s: Session, selected: seq<string>, h: Host, target: Path, fails: set<Path>, k: nat): Session
    requires k <= |Order|
  {
    if k == 0 then s
    else StepOn(TasksOn(s, selected, h, target, fails, k - 1), Order[k - 1], selected, h, target, fails)
  }

  /** main(selected_modules, case_name, device_name): the drive afterwards, the log of
      the modules that ran, and the exception that leaves main() (only the creation of
      the two folders can raise that far). */
  function MainOn(h: Host, selected: seq<string>, cases: Path, caseName: string, targetDate: string, logDate: string,
                  device: string, disk: Disk, fails: set<Path>): (Session, Outcome)
  {
    var target := TargetDir(cases, caseName, targetDate, device);
    var t := EnsureDirOn(disk, target);
    if t.out.Raised? then (Session(t.disk, []), t.out)
    else
      var l := EnsureDirOn(t.disk, LogDir(cases, caseName, logDate, device));
      if l.out.Raised? then (Session(l.disk, []), l.out)
      else (TasksOn(Session(l.disk, []), selected, h, target, fails, |Order|), Pass)
  }

  // ---------------------------------------------------------------------
  // What the run promises

  /** The names of xs that are selected, in the order of xs. */
  function SelectedIn(xs: seq<string>, selected: seq<string>): (ys: seq<string>)
    ensures forall y :: y in ys <==> y in xs && y in selected
  {
    if xs == [] then []
    else
      var rest := SelectedIn(xs[..|xs| - 1], selected);
      var x := xs[|xs| - 1];
      assert xs == xs[..|xs| - 1] + [x];
      if x in selected then rest + [x] else rest
  }

  function LogNames(log: seq<Ran>): (ns: seq<string>)
    ensures |ns| == |log| && forall i :: 0 <= i < |log| ==> ns[i] == log[i].name
  {
    seq(|log|, i requires 0 <= i < |log| => log[i].name)
  }

  /** The log of e continues the log of s with modules of these names. */
  predicate Extends(s: Session, e: Session, names: seq<string>) {
    && |s.log| <= |e.log|
    && e.log[..|s.log|] == s.log
    && LogNames(e.log[|s.log|..]) == names
  }

  /** Exactly the selected modules run, each once, in the fixed order, whatever the
      earlier ones raised: a failure is caught and logged, and the next module runs. */
  lemma {:induction false} EverySelectedRuns(s: Session, selected: seq<string>, h: Host, target: Path, fails: set<Path>, k: nat)
    requires k <= |Order|
    ensures var e := TasksOn(s, selected, h, target, fails, k);
      && |s.log| <= |e.log|
      && e.log[..|s.log|] == s.log
      && LogNames(e.log[|s.log|..]) == SelectedIn(Order[..k], selected)
  {
    if k == 0 {
      assert Order[..0] == [];
      assert s.log[|s.log|..] == [];
    } else {
      EverySelectedRuns(s, selected, h, target, fails, k - 1);
      var m := TasksOn(s, selected, h, target, fails, k - 1);
      var name := Order[k - 1];
      assert Order[..k] == Order[..k - 1] + [name];
      StepExtends(s, m, SelectedIn(Order[..k - 1], selected), name, selected, h, target, fails);
    }
  }

  /** One more module keeps the log's earlier entries and adds its name when selected. */
  lemma StepExtends(s: Session, m: Session, names: seq<string>, name: string, selected: seq<string>,
                    h: Host, target: Path, fails: set<Path>)
    requires Extends(s, m, names)
    ensures Extends(s, StepOn(m, name, selected, h, target, fails), if name in selected then names + [name] else names)
  {
    if name in selected {
      var e := StepOn(m, name, selected, h, target, fails);
      var ran := e.log[|e.log| - 1];
      assert e.log == m.log + [ran] && ran.name == name;
      assert e.log[|s.log|..] == m.log[|s.log|..] + [ran];
      LogNamesSnoc(m.log[|s.log|..], ran);
    }
  }

  /** main() as a whole: when either case folder cannot be made nothing runs and the
      exception leaves main(); otherwise the log names exactly the selected modules
      among the seven known ones, in main()'s order, and unknown names are ignored. */
  lemma MainLogs(h: Host, selected: seq<string>, cases: Path, caseName: string, targetDate: string, logDate: string,
                 device: string, disk: Disk, fails: set<Path>)
    ensures var (s, out) := MainOn(h, selected, cases, caseName, targetDate, logDate, device, disk, fails);
      && (out.Raised? ==> s.log == [])
      && (out == Pass ==> LogNames(s.log) == SelectedIn(Order, selected))
  {
    var target := TargetDir(cases, caseName, targetDate, device);
    var t := EnsureDirOn(disk, target);
    if t.out == Pass {
      var l := EnsureDirOn(t.disk, LogDir(cases, caseName, logDate, device));
      if l.out == Pass {
        var s0 := Session(l.disk, []);
        EverySelectedRuns(s0, selected, h, target, fails, |Order|);
        assert Order[..|Order|] == Order;
        var e := TasksOn(s0, selected, h, target, fails, |Order|);
        assert e.log[0..] == e.log;
      }
    }
  }

  lemma LogNamesSnoc(log: seq<Ran>, r: Ran)
    ensures LogNames(log + [r]) == LogNames(log) + [r.name]
  {
    assert forall i :: 0 <= i < |log| ==> (log + [r])[i] == log[i];
  }

  /** "Only ZIP files are left": when a module's block passes, the archive beside its
      export folder holds exactly what the collector left in that folder, and the folder
      is gone. */
  lemma TaskSealed(name: string, h: Host, disk: Disk, target: Path, fails: set<Path>)
    requires name != "installed_programs"
    ensures var dir := target + [ExportName(name)];
      var c := CollectOn(name, h, disk, dir);
      var e := TaskOn(name, h, disk, target, fails);
      e.out == Pass ==>
        && c.out == Pass
        && ZipPath(dir) == target + [ExportName(name) + ".zip"]
        && ZipPath(dir) in e.disk && e.disk[ZipPath(dir)] == Zip(Snapshot(c.disk, dir))
        && (forall q :: q in e.disk ==> !(dir <= q))
  {
    var dir := target + [ExportName(name)];
    assert ZipPath(dir) == target + [ExportName(name) + ".zip"];
    assert !(dir <= ZipPath(dir)) by {
      assert |ExportName(name) + ".zip"| != |ExportName(name)|;
    }
    var c := CollectOn(name, h, disk, dir);
    if c.out == Pass {
      ZipSeals(c.disk, dir, dir, fails);
    }
  }

  /** A machine without %WINDIR%\Prefetch: copy_prefetch_files returns before creating
      its folder, so make_archive finds no directory to archive and the prefetch block
      fails with FileNotFoundError, leaving the drive as it was. */
  lemma MissingPrefetchFails(h: Host, disk: Disk, target: Path, fails: set<Path>)
    requires !Exists(h.root, Prefetch.PrefetchDir(h.windir))
    requires !Present(disk, target + [ExportName("prefetch")])
    ensures TaskOn("prefetch", h, disk, target, fails) == Effect(disk, Raised(FileNotFoundError))
  {
  }

  /** The two Program Files skeletons go to two distinct folders, and neither lies
      inside the other or inside the other's archive. */
  lemma InstalledApart(target: Path)
    ensures var pf := target + [ProgramFilesName];
      var pf86 := target + [ProgramFilesX86Name];
      && !(pf <= pf86) && !(pf86 <= pf)
      && !(pf <= ZipPath(pf)) && !(pf <= ZipPath(pf86))
      && !(pf86 <= ZipPath(pf)) && !(pf86 <= ZipPath(pf86))
      && ZipPath(pf) != ZipPath(pf86)
  {
    var pf := target + [ProgramFilesName];
    var pf86 := target + [ProgramFilesX86Name];
    assert pf[|target|] != pf86[|target|];
    assert ZipPath(pf) == target + [ProgramFilesName + ".zip"];
    assert ZipPath(pf86) == target + [ProgramFilesX86Name + ".zip"];
    assert (ProgramFilesName + ".zip")[12] != ProgramFilesX86Name[12];
  }

  /** When the installed_programs block passes, each skeleton is sealed in its own
      archive and neither folder is left on the drive. */
  lemma InstalledSealed(h: Host, disk: Disk, target: Path, fails: set<Path>)
    ensures var e := InstalledOn(h, disk, target, fails);
      var pf := target + [ProgramFilesName];
      var pf86 := target + [ProgramFilesX86Name];
      e.out == Pass ==>
        var c1 := InstalledPrograms.CopyTopLevelOn(h.root, ProgramFilesSource, disk, pf);
        var c2 := InstalledPrograms.CopyTopLevelOn(h.root, ProgramFilesX86Source, c1.disk, pf86);
        && ZipPath(pf) in e.disk && e.disk[ZipPath(pf)] == Zip(Snapshot(c2.disk, pf))
        && ZipPath(pf86) in e.disk && e.disk[ZipPath(pf86)] == Zip(Snapshot(c2.disk, pf86))
        && (forall q :: q in e.disk ==> !(pf <= q) && !(pf86 <= q))
  {
    var pf := target + [ProgramFilesName];
    var pf86 := target + [ProgramFilesX86Name];
    InstalledApart(target);
    var e := InstalledOn(h, disk, target, fails);
    if e.out == Pass {
      var c1 := InstalledPrograms.CopyTopLevelOn(h.root, ProgramFilesSource, disk, pf);
      var c2 := InstalledPrograms.CopyTopLevelOn(h.root, ProgramFilesX86Source, c1.disk, pf86);
      var z1 := ZipOn(c2.disk, pf, pf, fails);
      assert c1.out == Pass && c2.out == Pass && z1.out == Pass;
      assert e == ZipOn(z1.disk, pf86, pf86, fails);
      ZipSeals(c2.disk, pf, pf, fails);
      ZipSeals(z1.disk, pf86, pf86, fails);
      assert ZipPath(pf) in z1.disk && !(pf86 <= ZipPath(pf));
      forall q | q in e.disk ensures !(pf <= q) {
        if q !in z1.disk {
          PrefixTransitive(pf, q, ZipPath(pf86));
        }
      }
      FirstZipKeepsSecond(c2.disk, z1.disk, pf, pf86);
      SnapshotAgrees(c2.disk, z1.disk, pf86);
    }
  }

  /** Sealing Program Files leaves everything at and below Program Files (x86) as it was. */
  lemma FirstZipKeepsSecond(d: Disk, z: Disk, pf: Path, pf86: Path)
    requires |pf| == |pf86| && pf != pf86 && !(pf86 <= ZipPath(pf))
    requires forall q :: q in d && !(pf <= q) && q != ZipPath(pf) ==> q in z && z[q] == d[q]
    requires forall q :: q in z && q !in d ==> q <= ZipPath(pf)
    ensures forall q :: q in d && pf86 <= q ==> q in z && z[q] == d[q]
    ensures forall q :: q in z && pf86 <= q ==> q in d
  {
    forall q | q in d && pf86 <= q ensures q in z && z[q] == d[q] {
      if pf <= q {
        SameLevel(pf, pf86, q);
      }
    }
    forall q | q in z && pf86 <= q ensures q in d {
      if q !in d {
        PrefixTransitive(pf86, q, ZipPath(pf));
      }
    }
  }

  // ---------------------------------------------------------------------
  // The procedures

  /** The try block of one module, on the drive. */
  method RunTask(name: string, h: Host, target: Path, vol: Volume) returns (out: Outcome)
    modifies vol
    ensures Effect(vol.disk, out) == TaskOn(name, h, old(vol.disk), target, vol.archiveFails)
  {
    if name == "installed_programs" {
      out := RunInstalled(h, target, vol);
      return;
    }
    var dir := target + [ExportName(name)];
    if name == "prefetch" {
      var caught, total, progress := Prefetch.CopyPrefetchFiles(h.root, h.windir, dir, vol);
      out := Pass;
    } else if name == "dir_tree" {
      out := DirTree.ExtractDirTree(h.root, dir, vol);
    } else if name == "processes" {
      var e := h.saveProcesses(vol.disk, dir);
      vol.disk, out := e.disk, e.out;
    } else if name == "teamviewer" {
      var caught, filesCopied := TeamViewer.CopyTeamViewerFiles(h.root, dir, vol);
      out := Pass;
    } else if name == "bet" {
      var caught := Bet.CopyBetFiles(h.root, dir, vol);
      out := Pass;
    } else {
      var caught := BrowserHistory.ExtractBrowserHistories(h.root, h.local, h.roaming, dir, vol);
      out := Pass;
    }
    if out.Raised? {
      return;
    }
    out := ZipDirectory(dir, dir, vol);
  }

  /** The installed_programs block. */
  method RunInstalled(h: Host, target: Path, vol: Volume) returns (out: Outcome)
    modifies vol
    ensures Effect(vol.disk, out) == InstalledOn(h, old(vol.disk), target, vol.archiveFails)
  {
    var pf := target + [ProgramFilesName];
    var pf86 := target + [ProgramFilesX86Name];
    var progress;
    out, progress := InstalledPrograms.CopyTopLevelDirectories(h.root, ProgramFilesSource, pf, vol);
    if out.Raised? {
      return;
    }
    out, progress := InstalledPrograms.CopyTopLevelDirectories(h.root, ProgramFilesX86Source, pf86, vol);
    if out.Raised? {
      return;
    }
    out := ZipDirectory(pf, pf, vol);
    if out.Raised? {
      return;
    }
    out := ZipDirectory(pf86, pf86, vol);
  }

  /** `if '<name>' in selected_modules:` around one module's try block. */
  method Step(name: string, selected: seq<string>, h: Host, target: Path, vol: Volume, log: seq<Ran>)
    returns (log': seq<Ran>)
    modifies vol
    ensures Session(vol.disk, log') == StepOn(Session(old(vol.disk), log), name, selected, h, target, vol.archiveFails)
  {
    log' := log;
    if name in selected {
      var out := RunTask(name, h, target, vol);
      log' := log + [Ran(name, out)];
    }
  }

  /** The seven module blocks of main(), in their order. */
  method RunModules(selected: seq<string>, h: Host, target: Path, vol: Volume) returns (log: seq<Ran>)
    modifies vol
    ensures Session(vol.disk, log) == TasksOn(Session(old(vol.disk), []), selected, h, target, vol.archiveFails, |Order|)
  {
    ghost var s0 := Session(vol.disk, []);
    ghost var fails := vol.archiveFails;
    log := Step("prefetch", selected, h, target, vol, []);
    assert Session(vol.disk, log) == TasksOn(s0, selected, h, target, fails, 1);
    log := Step("dir_tree", selected, h, target, vol, log);
    assert Session(vol.disk, log) == TasksOn(s0, selected, h, target, fails, 2);
    log := Step("processes", selected, h, target, vol, log);
    assert Session(vol.disk, log) == TasksOn(s0, selected, h, target, fails, 3);
    log := Step("installed_programs", selected, h, target, vol, log);
    assert Session(vol.disk, log) == TasksOn(s0, selected, h, target, fails, 4);
    log := Step("teamviewer", selected, h, target, vol, log);
    assert Session(vol.disk, log) == TasksOn(s0, selected, h, target, fails, 5);
    log := Step("bet", selected, h, target, vol, log);
    assert Session(vol.disk, log) == TasksOn(s0, selected, h, target, fails, 6);
    log := Step("browser_history", selected, h, target, vol, log);
  }

  /** main(selected_modules, case_name, device_name) */
  method RunExtraction(h: Host, selected: seq<string>, cases: Path, caseName: string, targetDate: string, logDate: string,
                       device: string, vol: Volume)
    returns (log: seq<Ran>, out: Outcome)
    modifies vol
    ensures (Session(vol.disk, log), out) == MainOn(h, selected, cases, caseName, targetDate, logDate, device, old(vol.disk), vol.archiveFails)
  {
    log := [];
    var target, logs;
    target, out := CreateTargetFolder(cases, caseName, targetDate, device, vol);
    if out.Raised? {
      return;
    }
    logs, out := CreateLogFolder(cases, caseName, logDate, device, vol);
    if out.Raised? {
      return;
    }
    log := RunModules(selected, h, target, vol);
  }
}
