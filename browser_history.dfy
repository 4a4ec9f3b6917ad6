/** browser_history_extractor.py: the Edge, Firefox and Chrome history databases
    copied under target_dir, one manifest row each, into browser_history.csv. The
    %LOCALAPPDATA% and %APPDATA% folders are given as resolved paths. */
module BrowserHistory {
  import opened Wrappers
  import opened SourceTree
  import opened Manifest
  import opened Destination
  import opened Mirror

  const ManifestName: string := "browser_history.csv"
  const PlacesName: string := "places.sqlite"

  function EdgeHistory(local: Path): Path {
    local + ["Microsoft", "Edge", "User Data", "Default", "History"]
  }

  function FirefoxProfiles(roaming: Path): Path {
    roaming + ["Mozilla", "Firefox", "Profiles"]
  }

  function ChromeProfile(local: Path): Path {
    local + ["Google", "Chrome", "User Data", "Default"]
  }

  function ChromeHistory(local: Path): Path {
    ChromeProfile(local) + ["History"]
  }

  /** os.path.join(firefox_profile_dir, profile, 'places.sqlite') */
  function PlacesOf(profiles: Path, profile: string): Path {
    profiles + [profile, PlacesName]
  }

  function EdgeTarget(target: Path): Path {
    target + ["Edge", "History"]
  }

  function FirefoxRoot(target: Path): Path {
    target + ["Firefox"]
  }

  function FirefoxTarget(target: Path, profile: string): Path {
    FirefoxRoot(target) + [profile, PlacesName]
  }

  function ChromeTarget(target: Path): Path {
    target + ["Chrome", "History"]
  }

  /** The handler `except Exception as e: logging.error(...)`: the run goes on. */
  function Caught(r: Run): Run {
    Run(r.disk, r.rows, Pass)
  }

  // ---------------------------------------------------------------------
  // The extractors as functions of the drive

  /** copy_file_with_metadata(src, dst, csv_writer) for the source node n at src. */
  function CopyWithMetadataOn(r: Run, src: Path, n: Node, dst: Path): Run
    requires r.out == Pass && |src| > 0 && |dst| > 0
  {
    var mk := EnsureDirOn(r.disk, DirName(dst));
    if mk.out.Raised? then Run(mk.disk, r.rows, mk.out)
    else
      var cp := Copy2On(mk.disk, src, n, dst);
      if cp.out.Raised? then Run(cp.disk, r.rows, cp.out)
      else Run(cp.disk, r.rows + [RecordOf(Found(src, n))], Pass)
  }

  /** extract_edge_history: the run afterwards; its outcome is what the handler logged. */
  function EdgeOn(r: Run, machine: Node, local: Path, target: Path): Run
    requires r.out == Pass
  {
    match Find(machine, EdgeHistory(local))
    case None => r
    case Some(n) => CopyWithMetadataOn(r, EdgeHistory(local), n, EdgeTarget(target))
  }

  /** One turn of the profile loop of extract_firefox_history. */
  function ProfileOn(r: Run, machine: Node, profiles: Path, profile: string, target: Path): Run
    requires r.out == Pass
  {
    match Find(machine, PlacesOf(profiles, profile))
    case None => r
    case Some(n) => CopyWithMetadataOn(r, PlacesOf(profiles, profile), n, FirefoxTarget(target, profile))
  }

  /** The profile loop over the first k names; an exception leaves the loop. */
  function ProfilesOn(r: Run, machine: Node, profiles: Path, names: seq<string>, k: nat, target: Path): Run
    requires r.out == Pass && k <= |names|
  {
    if k == 0 then r
    else
      var m := ProfilesOn(r, machine, profiles, names, k - 1, target);
      if m.out.Raised? then m else ProfileOn(m, machine, profiles, names[k - 1], target)
  }

  /** extract_firefox_history: a profiles folder that cannot be listed raises into the
      handler before any profile is visited. */
  function FirefoxOn(r: Run, machine: Node, roaming: Path, target: Path): Run
    requires r.out == Pass
  {
    var profiles := FirefoxProfiles(roaming);
    match Find(machine, profiles)
    case None => r
    case Some(Dir(es)) => ProfilesOn(r, machine, profiles, ListedNames(es), |es|, target)
    case Some(Unreadable(f)) => Run(r.disk, r.rows, Raised(ListingError(f)))
    case Some(File(_, _, _, _)) => Run(r.disk, r.rows, Raised(NotADirectoryError))
  }

  /** extract_chrome_history: the profile folder and the History file must both exist. */
  function ChromeOn(r: Run, machine: Node, local: Path, target: Path): Run
    requires r.out == Pass
  {
    if !Exists(machine, ChromeProfile(local)) then r
    else
      match Find(machine, ChromeHistory(local))
      case None => r
      case Some(n) => CopyWithMetadataOn(r, ChromeHistory(local), n, ChromeTarget(target))
  }

  /** The three extractors in order, each behind its own handler. */
  function BrowsersOn(r: Run, machine: Node, local: Path, roaming: Path, target: Path): Run
    requires r.out == Pass
  {
    var e := EdgeOn(r, machine, local, target);
    var f := FirefoxOn(Caught(e), machine, roaming, target);
    Caught(ChromeOn(Caught(f), machine, local, target))
  }

  /** extract_browser_histories(target_dir): the drive afterwards, and what its own
      handler caught (only os.makedirs and open can raise that far). */
  function BrowserHistoriesOn(machine: Node, local: Path, roaming: Path, disk: Disk, target: Path): Effect {
    var mk := EnsureDirOn(disk, target);
    if mk.out.Raised? then mk
    else
      var csv := target + [ManifestName];
      var op := OpenOn(mk.disk, csv, Csv([]));
      if op.out.Raised? then op
      else
        var r := BrowsersOn(Run(op.disk, [Header], Pass), machine, local, roaming, target);
        Effect(r.disk[csv := Csv(r.rows)], Pass)
  }

  // ---------------------------------------------------------------------
  // Which rows are written

  /** The candidate files of each browser that exist, in the order they are tried. */
  function EdgeCandidates(machine: Node, local: Path): (fs: seq<Found>)
    ensures |fs| <= 1
  {
    match Find(machine, EdgeHistory(local))
    case None => []
    case Some(n) => [Found(EdgeHistory(local), n)]
  }

  function ProfileCandidates(machine: Node, profiles: Path, names: seq<string>, k: nat): (fs: seq<Found>)
    requires k <= |names|
    ensures |fs| <= k
  {
    if k == 0 then []
    else
      var path := PlacesOf(profiles, names[k - 1]);
      ProfileCandidates(machine, profiles, names, k - 1)
        + (match Find(machine, path) case None => [] case Some(n) => [Found(path, n)])
  }

  function FirefoxCandidates(machine: Node, roaming: Path): seq<Found> {
    match Find(machine, FirefoxProfiles(roaming))
    case Some(Dir(es)) => ProfileCandidates(machine, FirefoxProfiles(roaming), ListedNames(es), |es|)
    case _ => []
  }

  function ChromeCandidates(machine: Node, local: Path): (fs: seq<Found>)
    ensures |fs| <= 1
    ensures Exists(machine, ChromeHistory(local)) && |fs| == 1 ==> Exists(machine, ChromeProfile(local))
  {
    if !Exists(machine, ChromeProfile(local)) then []
    else
      match Find(machine, ChromeHistory(local))
      case None => []
      case Some(n) => [Found(ChromeHistory(local), n)]
  }

  /** The candidates up to the first one that is not a file: copy2 raises on that one,
      so no row is ever written for it or for the candidates after it. */
  function FilesFirst(fs: seq<Found>): (gs: seq<Found>)
    ensures Recordable(gs) && |gs| <= |fs| && gs == fs[..|gs|]
    ensures Recordable(fs) ==> gs == fs
  {
    if fs == [] then []
    else if |fs[0].path| > 0 && fs[0].file.File? then
      var rest := FilesFirst(fs[1..]);
      assert Recordable(fs) ==> Recordable(fs[1..]) by {
        if Recordable(fs) {
          forall i | 0 <= i < |fs[1..]| ensures |fs[1..][i].path| > 0 && fs[1..][i].file.File? {
            assert fs[1..][i] == fs[i + 1];
          }
        }
      }
      assert ([fs[0]] + rest)[1..] == rest;
      [fs[0]] + rest
    else []
  }

  /** From run r to run e a browser wrote the rows of a prefix of its candidates, up to
      the first candidate that is not a file, one row each and in order; and it passed
      exactly when every candidate is a file and all of their rows were written. */
  predicate Tried(r: Run, e: Run, fs: seq<Found>) {
    && Appended(r.rows, e.rows, FilesFirst(fs))
    && (e.out == Pass <==> Recordable(fs) && |e.rows| == |r.rows| + |fs|)
  }

  /** When every candidate is a file, Tried is Logged. */
  lemma TriedIsLogged(r: Run, e: Run, fs: seq<Found>)
    requires Recordable(fs)
    ensures Tried(r, e, fs) <==> Logged(r, e, fs)
  {
  }

  lemma RecordableConcat(a: seq<Found>, b: seq<Found>)
    ensures Recordable(a + b) <==> Recordable(a) && Recordable(b)
  {
    assert forall i :: 0 <= i < |a| ==> (a + b)[i] == a[i];
    assert forall i :: 0 <= i < |b| ==> (a + b)[|a| + i] == b[i];
    if Recordable(a) && Recordable(b) {
      RecordsConcat(a, b);
    }
  }

  /** The files-first prefix of a + b: all of a and then b's, when a holds only files. */
  lemma {:induction false} FilesFirstConcat(a: seq<Found>, b: seq<Found>)
    ensures Recordable(a) ==> FilesFirst(a + b) == a + FilesFirst(b)
    ensures !Recordable(a) ==> FilesFirst(a + b) == FilesFirst(a)
  {
    if a == [] {
      assert a + b == b;
    } else {
      assert (a + b)[0] == a[0] && (a + b)[1..] == a[1..] + b;
      FilesFirstConcat(a[1..], b);
      RecordableConcat([a[0]], a[1..]);
      assert [a[0]] + a[1..] == a;
      if Recordable(a) {
        assert FilesFirst(a + b) == [a[0]] + FilesFirst(a[1..] + b);
        assert [a[0]] + (a[1..] + FilesFirst(b)) == a + FilesFirst(b);
      }
    }
  }

  lemma TriedNothing(r: Run)
    requires r.out == Pass
    ensures Tried(r, r, [])
  {
    AppendedNone(r.rows, []);
  }

  /** A passing stretch followed by a tried stretch is tried over both. */
  lemma TriedThen(r: Run, m: Run, e: Run, a: seq<Found>, b: seq<Found>)
    requires Tried(r, m, a) && m.out == Pass && Tried(m, e, b)
    ensures Tried(r, e, a + b)
  {
    FilesFirstConcat(a, b);
    RecordableConcat(a, b);
    AppendedThen(r.rows, m.rows, e.rows, a, FilesFirst(b));
  }

  /** A stretch an exception ended stays tried whatever candidates follow it. */
  lemma TriedStops(r: Run, m: Run, a: seq<Found>, b: seq<Found>)
    requires Tried(r, m, a) && m.out.Raised?
    ensures Tried(r, m, a + b)
  {
    FilesFirstConcat(a, b);
    RecordableConcat(a, b);
    if Recordable(a) {
      AppendedMore(r.rows, m.rows, a, FilesFirst(b));
    }
  }

  /** One copy writes its file's row exactly when it passes; a candidate that is not a
      file makes copy2 raise, and no row is written. */
  lemma CopyLogs(r: Run, src: Path, n: Node, dst: Path)
    requires r.out == Pass && |src| > 0 && |dst| > 0
    ensures Recordable([Found(src, n)]) <==> n.File?
    ensures n.File? ==> Logged(r, CopyWithMetadataOn(r, src, n, dst), [Found(src, n)])
    ensures !n.File? ==> var e := CopyWithMetadataOn(r, src, n, dst); e.rows == r.rows && e.out.Raised?
    ensures Tried(r, CopyWithMetadataOn(r, src, n, dst), [Found(src, n)])
  {
    var fs := [Found(src, n)];
    if n.File? {
      assert fs[..0] == [] && fs[..1] == fs;
    } else {
      assert !fs[0].file.File?;
      assert FilesFirst(fs) == [];
      AppendedNone(r.rows, []);
    }
  }

  lemma EdgeLogs(r: Run, machine: Node, local: Path, target: Path)
    requires r.out == Pass
    ensures Tried(r, EdgeOn(r, machine, local, target), EdgeCandidates(machine, local))
  {
    match Find(machine, EdgeHistory(local)) {
      case None => TriedNothing(r);
      case Some(n) => CopyLogs(r, EdgeHistory(local), n, EdgeTarget(target));
    }
  }

  lemma ChromeLogs(r: Run, machine: Node, local: Path, target: Path)
    requires r.out == Pass
    ensures Tried(r, ChromeOn(r, machine, local, target), ChromeCandidates(machine, local))
  {
    if !Exists(machine, ChromeProfile(local)) {
      TriedNothing(r);
    } else {
      match Find(machine, ChromeHistory(local)) {
        case None => TriedNothing(r);
        case Some(n) => CopyLogs(r, ChromeHistory(local), n, ChromeTarget(target));
      }
    }
  }

  /** The profile loop writes the rows of a prefix of the profiles' places.sqlite files,
      one each in listing order, up to the first that is not a file; it passes exactly
      when all of them are files and were written. */
  lemma {:induction false} ProfilesLog(r: Run, machine: Node, profiles: Path, names: seq<string>, k: nat, target: Path)
    requires r.out == Pass && k <= |names|
    ensures Tried(r, ProfilesOn(r, machine, profiles, names, k, target), ProfileCandidates(machine, profiles, names, k))
  {
    if k == 0 {
      TriedNothing(r);
    } else {
      var before := ProfileCandidates(machine, profiles, names, k - 1);
      var path := PlacesOf(profiles, names[k - 1]);
      var step: seq<Found> := match Find(machine, path) case None => [] case Some(n) => [Found(path, n)];
      assert ProfileCandidates(machine, profiles, names, k) == before + step;
      ProfilesLog(r, machine, profiles, names, k - 1, target);
      var m := ProfilesOn(r, machine, profiles, names, k - 1, target);
      if m.out.Raised? {
        TriedStops(r, m, before, step);
      } else {
        match Find(machine, path) {
          case None =>
            TriedNothing(m);
            TriedThen(r, m, m, before, []);
            assert before + [] == before;
          case Some(n) =>
            CopyLogs(m, path, n, FirefoxTarget(target, names[k - 1]));
            TriedThen(r, m, ProfileOn(m, machine, profiles, names[k - 1], target), before, step);
        }
      }
    }
  }

  /** The same for Firefox, except that a profiles folder that cannot be listed raises
      with nothing written. */
  lemma FirefoxLogs(r: Run, machine: Node, roaming: Path, target: Path)
    requires r.out == Pass
    ensures var e := FirefoxOn(r, machine, roaming, target);
      var listing := Find(machine, FirefoxProfiles(roaming));
      && (listing.None? || listing.value.Dir? ==> Tried(r, e, FirefoxCandidates(machine, roaming)))
      && (listing.Some? && !listing.value.Dir? ==> e.rows == r.rows && e.out.Raised?)
  {
    match Find(machine, FirefoxProfiles(roaming)) {
      case Some(Dir(es)) => ProfilesLog(r, machine, FirefoxProfiles(roaming), ListedNames(es), |es|, target);
      case None => TriedNothing(r);
      case Some(_) =>
    }
  }

  /** After the header, each browser adds the rows of a prefix of its own candidate
      files, one per file and in order, and all of them exactly when that browser
      passes: a browser that fails never stops the ones after it. */
  lemma BrowsersLog(r: Run, machine: Node, local: Path, roaming: Path, target: Path)
    requires r.out == Pass
    ensures var e := EdgeOn(r, machine, local, target);
      var f := FirefoxOn(Caught(e), machine, roaming, target);
      var c := ChromeOn(Caught(f), machine, local, target);
      var listing := Find(machine, FirefoxProfiles(roaming));
      && Tried(r, e, EdgeCandidates(machine, local))
      && (listing.None? || listing.value.Dir? ==> Tried(Caught(e), f, FirefoxCandidates(machine, roaming)))
      && (listing.Some? && !listing.value.Dir? ==> f.rows == e.rows && f.out.Raised?)
      && Tried(Caught(f), c, ChromeCandidates(machine, local))
      && BrowsersOn(r, machine, local, roaming, target) == Caught(c)
  {
    var e := EdgeOn(r, machine, local, target);
    EdgeLogs(r, machine, local, target);
    FirefoxLogs(Caught(e), machine, roaming, target);
    ChromeLogs(Caught(FirefoxOn(Caught(e), machine, roaming, target)), machine, local, target);
  }

  /** Once the manifest is open, extract_browser_histories passes and browser_history.csv
      holds the header, then the rows each browser wrote as BrowsersLog describes; when
      no browser's handler caught anything, that is one row for every candidate file of
      Edge, then Firefox, then Chrome. */
  lemma BrowserManifest(machine: Node, local: Path, roaming: Path, disk: Disk, target: Path)
    requires EnsureDirOn(disk, target).out == Pass
    requires OpenOn(EnsureDirOn(disk, target).disk, target + [ManifestName], Csv([])).out == Pass
    ensures var x := BrowserHistoriesOn(machine, local, roaming, disk, target);
      var csv := target + [ManifestName];
      var r := Run(OpenOn(EnsureDirOn(disk, target).disk, csv, Csv([])).disk, [Header], Pass);
      var e := EdgeOn(r, machine, local, target);
      var f := FirefoxOn(Caught(e), machine, roaming, target);
      var c := ChromeOn(Caught(f), machine, local, target);
      && x.out == Pass
      && csv in x.disk && x.disk[csv] == Csv(c.rows)
      && |c.rows| >= 1 && c.rows[0] == Header
      && Tried(r, e, EdgeCandidates(machine, local))
      && (f.out == Pass ==> Tried(Caught(e), f, FirefoxCandidates(machine, roaming)))
      && Tried(Caught(f), c, ChromeCandidates(machine, local))
      && (e.out == Pass && f.out == Pass && c.out == Pass ==>
            c.rows == [Header] + Records(EdgeCandidates(machine, local))
                               + Records(FirefoxCandidates(machine, roaming))
                               + Records(ChromeCandidates(machine, local)))
  {
    var csv := target + [ManifestName];
    var r := Run(OpenOn(EnsureDirOn(disk, target).disk, csv, Csv([])).disk, [Header], Pass);
    BrowsersLog(r, machine, local, roaming, target);
    var e := EdgeOn(r, machine, local, target);
    var f := FirefoxOn(Caught(e), machine, roaming, target);
    var c := ChromeOn(Caught(f), machine, local, target);
    var fc := FirefoxCandidates(machine, roaming);
    var listing := Find(machine, FirefoxProfiles(roaming));
    if listing.None? || listing.value.Dir? {
      assert Tried(Caught(e), f, fc);
    }
    ManifestRows(r, e, f, c, EdgeCandidates(machine, local), fc, ChromeCandidates(machine, local));
  }

  /** Three browsers in turn after the header: the header stays first, and when all three
      pass the rows are exactly those of all their candidates, in order. */
  lemma ManifestRows(r: Run, e: Run, f: Run, c: Run, ec: seq<Found>, fc: seq<Found>, cc: seq<Found>)
    requires r.rows == [Header]
    requires Tried(r, e, ec) && Tried(Caught(f), c, cc)
    requires |e.rows| <= |f.rows| && f.rows[..|e.rows|] == e.rows
    requires f.out == Pass ==> Tried(Caught(e), f, fc)
    ensures |c.rows| >= 1 && c.rows[0] == Header
    ensures e.out == Pass && f.out == Pass && c.out == Pass ==>
      Recordable(ec) && Recordable(fc) && Recordable(cc) &&
      c.rows == [Header] + Records(ec) + Records(fc) + Records(cc)
  {
    assert e.rows[0] == Header;
    assert f.rows[0] == e.rows[0];
    if e.out == Pass && f.out == Pass && c.out == Pass {
      assert ec[..|ec|] == ec && fc[..|fc|] == fc && cc[..|cc|] == cc;
    }
  }

  // ---------------------------------------------------------------------
  // Where the copies land

  /** copy_file_with_metadata creates dst's folder when it is missing and leaves the
      file's bytes at dst; nothing else on the drive changes but the folders it made. */
  lemma CopyLands(r: Run, src: Path, n: Node, dst: Path)
    requires r.out == Pass && |src| > 0 && |dst| > 0
    requires !IsFolder(r.disk, dst)
    requires forall q :: q <= DirName(dst) && q in r.disk ==> IsFolder(r.disk, q)
    ensures var e := CopyWithMetadataOn(r, src, n, dst);
      && (e.out == Pass <==> n.File? && n.readable)
      && (e.out == Pass ==> dst in e.disk && e.disk[dst] == Copied(n.data) && IsFolder(e.disk, DirName(dst)))
      && (forall q :: q in r.disk && q != dst ==> q in e.disk && e.disk[q] == r.disk[q])
      && (forall q :: q in e.disk && q !in r.disk ==> q == dst || (q <= DirName(dst) && e.disk[q].Folder?))
  {
    var p := DirName(dst);
    MakeDirsPass(r.disk, p);
    MakeDirsOnlyAdds(r.disk, p);
    assert !(dst <= p);
    var mk := EnsureDirOn(r.disk, p);
    assert mk.out == Pass && IsFolder(mk.disk, p);
    assert !IsFolder(mk.disk, dst);
  }

  /** Edge: when History exists it ends up at target/Edge/History, and the extractor
      passes exactly when there is nothing to copy or the copy succeeds. */
  lemma EdgeLands(r: Run, machine: Node, local: Path, target: Path)
    requires r.out == Pass
    requires !IsFolder(r.disk, EdgeTarget(target))
    requires forall q :: q <= target + ["Edge"] && q in r.disk ==> IsFolder(r.disk, q)
    ensures var e := EdgeOn(r, machine, local, target);
      var found := Find(machine, EdgeHistory(local));
      && (found.None? ==> e == r)
      && (found.Some? ==>
            && (e.out == Pass <==> found.value.File? && found.value.readable)
            && (e.out == Pass ==> EdgeTarget(target) in e.disk && e.disk[EdgeTarget(target)] == Copied(found.value.data)))
      && (forall q :: q in r.disk && q != EdgeTarget(target) ==> q in e.disk && e.disk[q] == r.disk[q])
      && (forall q :: q in e.disk && q !in r.disk ==> q == EdgeTarget(target) || (q <= target + ["Edge"] && e.disk[q].Folder?))
  {
    assert DirName(EdgeTarget(target)) == target + ["Edge"];
    match Find(machine, EdgeHistory(local)) {
      case None =>
      case Some(n) => CopyLands(r, EdgeHistory(local), n, EdgeTarget(target));
    }
  }

  /** Chrome: History is copied to target/Chrome/History only when the profile folder
      and History both exist; otherwise nothing changes. */
  lemma ChromeLands(r: Run, machine: Node, local: Path, target: Path)
    requires r.out == Pass
    requires !IsFolder(r.disk, ChromeTarget(target))
    requires forall q :: q <= target + ["Chrome"] && q in r.disk ==> IsFolder(r.disk, q)
    ensures var e := ChromeOn(r, machine, local, target);
      var found := Find(machine, ChromeHistory(local));
      && (!Exists(machine, ChromeProfile(local)) || found.None? ==> e == r)
      && (Exists(machine, ChromeProfile(local)) && found.Some? ==>
            && (e.out == Pass <==> found.value.File? && found.value.readable)
            && (e.out == Pass ==> ChromeTarget(target) in e.disk && e.disk[ChromeTarget(target)] == Copied(found.value.data)))
      && (forall q :: q in r.disk && q != ChromeTarget(target) ==> q in e.disk && e.disk[q] == r.disk[q])
      && (forall q :: q in e.disk && q !in r.disk ==> q == ChromeTarget(target) || (q <= target + ["Chrome"] && e.disk[q].Folder?))
  {
    assert DirName(ChromeTarget(target)) == target + ["Chrome"];
    if Exists(machine, ChromeProfile(local)) {
      match Find(machine, ChromeHistory(local)) {
        case None =>
        case Some(n) => CopyLands(r, ChromeHistory(local), n, ChromeTarget(target));
      }
    }
  }

  /** No path strictly below target/Firefox is there but one that starts with the folder
      of a profile among the first k names. */
  predicate FirefoxFresh(d: Disk, target: Path, names: seq<string>, k: nat)
    requires k <= |names|
  {
    forall q :: q in d && FirefoxRoot(target) < q ==> q[|FirefoxRoot(target)|] in names[..k]
  }

  /** The places.sqlite of every profile among the first k that has one is at its target. */
  predicate ProfilesLanded(d: Disk, machine: Node, profiles: Path, names: seq<string>, k: nat, target: Path)
    requires k <= |names|
  {
    forall j :: 0 <= j < k && Exists(machine, PlacesOf(profiles, names[j])) ==>
      && Find(machine, PlacesOf(profiles, names[j])).value.File?
      && FirefoxTarget(target, names[j]) in d
      && d[FirefoxTarget(target, names[j])] == Copied(Find(machine, PlacesOf(profiles, names[j])).value.data)
  }

  /** Each profile that holds places.sqlite yields target/Firefox/<profile>/places.sqlite
      when the loop passes, provided nothing was below target/Firefox before and the
      profile names are distinct, as in a real listing. */
  lemma {:induction false} ProfilesLand(r: Run, machine: Node, profiles: Path, names: seq<string>, k: nat, target: Path)
    requires r.out == Pass && k <= |names|
    requires forall i, j :: 0 <= i < j < |names| ==> names[i] != names[j]
    requires forall q :: q in r.disk ==> !(FirefoxRoot(target) < q)
    requires forall q :: q <= FirefoxRoot(target) && q in r.disk ==> IsFolder(r.disk, q)
    ensures var e := ProfilesOn(r, machine, profiles, names, k, target);
      && FirefoxFresh(e.disk, target, names, k)
      && (forall q :: q <= FirefoxRoot(target) && q in e.disk ==> IsFolder(e.disk, q))
      && (e.out == Pass ==> ProfilesLanded(e.disk, machine, profiles, names, k, target))
  {
    if k > 0 {
      ProfilesLand(r, machine, profiles, names, k - 1, target);
      var m := ProfilesOn(r, machine, profiles, names, k - 1, target);
      if m.out.Raised? {
        FreshMore(m.disk, target, names, k - 1);
      } else {
        ProfileLands(m, machine, profiles, names, k - 1, target);
      }
    }
  }

  lemma FreshMore(d: Disk, target: Path, names: seq<string>, k: nat)
    requires k < |names| && FirefoxFresh(d, target, names, k)
    ensures FirefoxFresh(d, target, names, k + 1)
  {
    assert forall x :: x in names[..k] ==> x in names[..k + 1] by {
      assert names[..k + 1] == names[..k] + [names[k]];
    }
  }

  /** One profile: its copy touches neither an earlier profile's file nor anything
      outside its own folder. */
  lemma ProfileLands(m: Run, machine: Node, profiles: Path, names: seq<string>, k: nat, target: Path)
    requires m.out == Pass && k < |names|
    requires forall i, j :: 0 <= i < j < |names| ==> names[i] != names[j]
    requires FirefoxFresh(m.disk, target, names, k)
    requires forall q :: q <= FirefoxRoot(target) && q in m.disk ==> IsFolder(m.disk, q)
    requires ProfilesLanded(m.disk, machine, profiles, names, k, target)
    ensures var e := ProfileOn(m, machine, profiles, names[k], target);
      && FirefoxFresh(e.disk, target, names, k + 1)
      && (forall q :: q <= FirefoxRoot(target) && q in e.disk ==> IsFolder(e.disk, q))
      && (e.out == Pass ==> ProfilesLanded(e.disk, machine, profiles, names, k + 1, target))
  {
    var root := FirefoxRoot(target);
    var dst := FirefoxTarget(target, names[k]);
    var path := PlacesOf(profiles, names[k]);
    var e := ProfileOn(m, machine, profiles, names[k], target);
    assert names[..k + 1] == names[..k] + [names[k]];
    assert names[k] !in names[..k];
    assert dst[|root|] == names[k] && DirName(dst)[|root|] == names[k];
    assert root < DirName(dst) && root < dst;
    assert dst !in m.disk && DirName(dst) !in m.disk;
    assert forall q :: q <= DirName(dst) && q in m.disk ==> q <= root;
    match Find(machine, path) {
      case None =>
        assert e == m;
        assert !Exists(machine, PlacesOf(profiles, names[k]));
        FreshMore(m.disk, target, names, k);
      case Some(n) =>
        CopyLands(m, path, n, dst);
        MakeDirsOnlyAdds(m.disk, DirName(dst));
        forall q | q in e.disk && root < q ensures q[|root|] in names[..k + 1] {
          assert q !in m.disk ==> q <= DirName(dst) || q == dst;
        }
        forall q | q <= root && q in e.disk ensures IsFolder(e.disk, q) {
          assert q != dst;
          if q !in m.disk {
            assert q <= DirName(dst);
          }
        }
        if e.out == Pass {
          forall j | 0 <= j < k + 1 && Exists(machine, PlacesOf(profiles, names[j]))
            ensures Find(machine, PlacesOf(profiles, names[j])).value.File?
            ensures FirefoxTarget(target, names[j]) in e.disk
            ensures e.disk[FirefoxTarget(target, names[j])] == Copied(Find(machine, PlacesOf(profiles, names[j])).value.data)
          {
            if j < k {
              assert names[j] != names[k];
              assert FirefoxTarget(target, names[j])[|root|] != dst[|root|];
            }
          }
        }
    }
  }

  /** With a fresh target/Firefox, every profile holding places.sqlite yields
      target/Firefox/<profile>/places.sqlite when the extractor passes. */
  lemma FirefoxLands(r: Run, machine: Node, roaming: Path, target: Path)
    requires r.out == Pass && WellFormed(machine)
    requires forall q :: q in r.disk ==> !(FirefoxRoot(target) < q)
    requires forall q :: q <= FirefoxRoot(target) && q in r.disk ==> IsFolder(r.disk, q)
    ensures var e := FirefoxOn(r, machine, roaming, target);
      e.out == Pass && Find(machine, FirefoxProfiles(roaming)).Some? ==>
        var es := Find(machine, FirefoxProfiles(roaming)).value.entries;
        ProfilesLanded(e.disk, machine, FirefoxProfiles(roaming), ListedNames(es), |es|, target)
  {
    var profiles := FirefoxProfiles(roaming);
    match Find(machine, profiles) {
      case Some(Dir(es)) =>
        FindWellFormed(machine, profiles);
        ProfilesLand(r, machine, profiles, ListedNames(es), |es|, target);
      case _ =>
    }
  }

  // ---------------------------------------------------------------------
  // The procedures

  /** copy_file_with_metadata(src, dst, csv_writer) */
  method CopyFileWithMetadata(src: Path, n: Node, dst: Path, vol: Volume, writer: CsvWriter) returns (out: Outcome)
    requires |src| > 0 && |dst| > 0
    modifies vol, writer
    ensures Run(vol.disk, writer.rows, out)
         == CopyWithMetadataOn(Run(old(vol.disk), old(writer.rows), Pass), src, n, dst)
  {
    out := vol.EnsureDir(DirName(dst));
    if out.Raised? {
      return;
    }
    out := vol.Copy2(src, n, dst);
    if out.Raised? {
      return;
    }
    writer.WriteRow(RecordOf(Found(src, n)));
  }

  /** extract_edge_history(target_dir, csv_writer): returns what its handler logged. */
  method ExtractEdgeHistory(machine: Node, local: Path, target: Path, vol: Volume, writer: CsvWriter)
    returns (caught: Outcome)
    modifies vol, writer
    ensures Run(vol.disk, writer.rows, caught)
         == EdgeOn(Run(old(vol.disk), old(writer.rows), Pass), machine, local, target)
  {
    caught := Pass;
    var history := EdgeHistory(local);
    match Find(machine, history) {
      case None =>
      case Some(n) =>
        caught := CopyFileWithMetadata(history, n, EdgeTarget(target), vol, writer);
    }
  }

  /** extract_firefox_history(target_dir, csv_writer): returns what its handler logged. */
  method ExtractFirefoxHistory(machine: Node, roaming: Path, target: Path, vol: Volume, writer: CsvWriter)
    returns (caught: Outcome)
    modifies vol, writer
    ensures Run(vol.disk, writer.rows, caught)
         == FirefoxOn(Run(old(vol.disk), old(writer.rows), Pass), machine, roaming, target)
  {
    caught := Pass;
    var profiles := FirefoxProfiles(roaming);
    match Find(machine, profiles) {
      case None =>
      case Some(File(_, _, _, _)) =>
        caught := Raised(NotADirectoryError);
      case Some(Unreadable(f)) =>
        caught := Raised(ListingError(f));
      case Some(Dir(es)) =>
        caught := VisitProfiles(machine, profiles, ListedNames(es), target, vol, writer);
    }
  }

  /** `for profile in os.listdir(firefox_profile_dir)` */
  method VisitProfiles(machine: Node, profiles: Path, names: seq<string>, target: Path, vol: Volume, writer: CsvWriter)
    returns (caught: Outcome)
    modifies vol, writer
    ensures Run(vol.disk, writer.rows, caught)
         == ProfilesOn(Run(old(vol.disk), old(writer.rows), Pass), machine, profiles, names, |names|, target)
  {
    ghost var r0 := Run(vol.disk, writer.rows, Pass);
    caught := Pass;
    var k := 0;
    while k < |names|
      invariant 0 <= k <= |names|
      invariant caught == Pass
      invariant Run(vol.disk, writer.rows, Pass) == ProfilesOn(r0, machine, profiles, names, k, target)
    {
      var history := PlacesOf(profiles, names[k]);
      match Find(machine, history) {
        case None =>
        case Some(n) =>
          caught := CopyFileWithMetadata(history, n, FirefoxTarget(target, names[k]), vol, writer);
      }
      if caught.Raised? {
        ProfilesStop(r0, machine, profiles, names, k + 1, |names|, target);
        return;
      }
      k := k + 1;
    }
  }

  /** Once an exception left the loop, the remaining profiles are not visited. */
  lemma {:induction false} ProfilesStop(r: Run, machine: Node, profiles: Path, names: seq<string>, k: nat, j: nat, target: Path)
    requires r.out == Pass && k <= j <= |names|
    requires ProfilesOn(r, machine, profiles, names, k, target).out.Raised?
    ensures ProfilesOn(r, machine, profiles, names, j, target) == ProfilesOn(r, machine, profiles, names, k, target)
    decreases j
  {
    if j > k {
      ProfilesStop(r, machine, profiles, names, k, j - 1, target);
    }
  }

  /** extract_chrome_history(target_dir, csv_writer): returns what its handler logged. */
  method ExtractChromeHistory(machine: Node, local: Path, target: Path, vol: Volume, writer: CsvWriter)
    returns (caught: Outcome)
    modifies vol, writer
    ensures Run(vol.disk, writer.rows, caught)
         == ChromeOn(Run(old(vol.disk), old(writer.rows), Pass), machine, local, target)
  {
    caught := Pass;
    if Exists(machine, ChromeProfile(local)) {
      var history := ChromeHistory(local);
      match Find(machine, history) {
        case None =>
        case Some(n) =>
          caught := CopyFileWithMetadata(history, n, ChromeTarget(target), vol, writer);
      }
    }
  }

  /** extract_browser_histories(target_dir): returns what its handler caught. */
  method ExtractBrowserHistories(machine: Node, local: Path, roaming: Path, target: Path, vol: Volume)
    returns (caught: Outcome)
    modifies vol
    ensures Effect(vol.disk, caught) == BrowserHistoriesOn(machine, local, roaming, old(vol.disk), target)
  {
    caught := vol.EnsureDir(target);
    if caught.Raised? {
      return;
    }
    var csv := target + [ManifestName];
    ghost var made := vol.disk;
    caught := vol.Open(csv, Csv([]));
    if caught.Raised? {
      return;
    }
    ghost var d1 := vol.disk;
    var writer := new CsvWriter();
    writer.WriteRow(Header);
    assert writer.rows == [Header] && vol.disk == d1;
    ExtractEachBrowser(machine, local, roaming, target, vol, writer);
    assert Run(vol.disk, writer.rows, Pass) == BrowsersOn(Run(d1, [Header], Pass), machine, local, roaming, target);
    vol.Close(csv, Csv(writer.rows));
  }

  /** The three extractor calls, each behind its own handler. */
  method ExtractEachBrowser(machine: Node, local: Path, roaming: Path, target: Path, vol: Volume, writer: CsvWriter)
    modifies vol, writer
    ensures Run(vol.disk, writer.rows, Pass)
         == BrowsersOn(Run(old(vol.disk), old(writer.rows), Pass), machine, local, roaming, target)
  {
    ghost var r0 := Run(vol.disk, writer.rows, Pass);
    var edge := ExtractEdgeHistory(machine, local, target, vol, writer);
    ghost var e := EdgeOn(r0, machine, local, target);
    assert Run(vol.disk, writer.rows, Pass) == Caught(e);
    var firefox := ExtractFirefoxHistory(machine, roaming, target, vol, writer);
    ghost var f := FirefoxOn(Caught(e), machine, roaming, target);
    assert Run(vol.disk, writer.rows, Pass) == Caught(f);
    var chrome := ExtractChromeHistory(machine, local, target, vol, writer);
  }
}
