# RapidExtractor collection core, in Dafny

RapidExtractor is a forensic triage tool for Windows machines. For one case and
device it creates `cases/<case>_<date>/<device>/extraction_results` and
`cases/<case>_<date>/<device>/logs`; each reads the clock on its own, so a run that
crosses midnight puts them under two case folders. It then runs the modules the investigator selected, always in the
same order: prefetch, dir_tree, processes, installed_programs, teamviewer, bet and
browser_history. Each module collects evidence into its own `<Name>_export` folder
together with a CSV manifest. That manifest holds one row per copied file: the
name, source path, creation time, access time and MD5 digest. The folder is then
sealed into a zip archive and removed. Each module runs inside its own handler,
so a module that fails is logged and the next one still runs.

This project models that core:

- **The examined machine** is an immutable tree (`SourceTree.Node`).
  - A `File` carries its bytes, its timestamps and whether it can be read.
  - A `Dir` lists its entries in the order `os.listdir` returns them.
  - An `Unreadable` directory is one whose listing fails; nothing below it resolves.
  - `os.walk`, `os.listdir`, `os.path.exists` and `os.path.isdir` are functions
    of this tree.
- **The investigator's drive** is a `Destination.Volume` object holding a map from
  path to content: a folder, a copied file, a CSV manifest, a text file or a zip
  archive.
  - `os.makedirs`, `open`, `shutil.copy2`, `shutil.make_archive` and
    `shutil.rmtree` are methods that update that map.
  - Each of them is specified by a function giving the new map and the exception
    raised, if any.
- **Each collector** is an imperative method (loops over the walk or the
  listing, a recursive procedure for BET). It is proved equal to a fold over the
  files it visits, and the properties the code promises are proved of that
  fold:
  - which files are taken;
  - where each copy lands;
  - one manifest row per copied file, in visiting order, after the header;
  - the first uncaught exception ends the collection;
  - nothing already on the drive is altered.
- **The tree renderer** writes one line per entry, in sorted name order. `└── `
  goes exactly to the last sibling, and a directory that cannot be listed writes
  a single sentinel line. The progress bar advances once per line.
- **main()** builds the two case folders and zips each export folder only after
  collecting it; `rmtree` runs only after `make_archive` returned. It then runs
  exactly the selected modules, in the fixed order, whatever the earlier ones
  raised.

The modules follow the program:

| module | file | models |
|---|---|---|
| Wrappers, SourceTree, NameOrder | wrappers.dfy, source_tree.dfy, name_order.dfy | exceptions, the source tree, `os.walk`, Python's string order and `sorted()` |
| Destination, Manifest, Mirror | destination.dfy, manifest.dfy, mirror.dfy | the drive and library calls, `calculate_md5` and CSV rows, the per-file copy step shared by the TeamViewer and Prefetch collectors |
| DirTree | dir_tree.dfy | dir_tree_extractor.py |
| TeamViewer | teamviewer.dfy | teamviewer_extractor.py |
| Bet | bet.dfy | bet_extractor.py |
| Prefetch | prefetch.dfy | prefetch_extractor.py |
| BrowserHistory | browser_history.dfy | browser_history_extractor.py |
| InstalledPrograms | installed_programs.dfy | installed_programs_extractor.py |
| Orchestrator | orchestrator.dfy | main.py |

Some behaviour of the code, as written, is worth knowing (each point is proved):

- **A missing Prefetch folder is logged as a failure** (`Orchestrator.MissingPrefetchFails`).
  `copy_prefetch_files` returns without creating its export folder when
  `%WINDIR%\Prefetch` is missing. `zip_directory` then raises on the missing
  folder, so main() logs "Prefetch extraction failed".
- **A single failed copy stops a collector.** TeamViewer, Prefetch and BET have no
  per-file handler: the first file that cannot be copied ends the collection
  (`Mirror.StopAtRaise`, `Bet.ItemsStop`). The manifest keeps the rows written up
  to that point (`TeamViewer.TeamViewerManifest`, `Prefetch.PrefetchManifest`,
  `Bet.BetManifest`).
- **A missing `C:\BET\Logs` is caught only by the task handler**
  (`Bet.MissingLogsRaises`). It makes `os.listdir` raise FileNotFoundError inside
  `copy_directory_with_metadata`, after `target\Logs` was created, and the
  manifest holds only its header.
- **`└── ` relies on distinct names.** `contents.index(item) == len(contents) - 1`
  picks the last sibling only because names in one directory are distinct
  (`DirTree.PointerIsLast`).

## Model

| member | source | states |
|---|---|---|
| Manifest.CalculateMd5 | teamviewer_extractor.py:8-27 | returns a digest exactly when the node is a readable file, and then it is the digest of the file's bytes; it never raises |
| Manifest.Records | teamviewer_extractor.py:58-62 | one row per file, in order, each the five cells of that file |
| Manifest.CsvWriter.WriteRow | teamviewer_extractor.py:62 | `writerow` appends exactly one row after those already written |
| NameOrder.BelowTotal | dir_tree_extractor.py:23 | Python's `<` on str is total: of two distinct names one sorts first |
| NameOrder.BelowTransitive | dir_tree_extractor.py:23 | Python's `<` on str is transitive |
| NameOrder.SortByName | dir_tree_extractor.py:23 | `sorted()` returns a permutation of the listing |
| NameOrder.SortSorted | dir_tree_extractor.py:23 | `sorted()` returns the listing in non-decreasing name order |
| NameOrder.SortIgnoresListingOrder | dir_tree_extractor.py:23 | two listings of the same entries with distinct names sort to the same sequence |
| SourceTree.Lookup | dir_tree_extractor.py:38 | an entry name resolves exactly when the listing holds an entry of that name, and to that entry's node |
| SourceTree.FindWellFormed | prefetch_extractor.py:37-38 | every folder reached by a path on a real file system lists distinct names |
| SourceTree.WalkFilesBelow | prefetch_extractor.py:53-56 | every file `os.walk(p)` yields lies strictly below p, so its relative path is defined |
| SourceTree.WalkSpread | prefetch_extractor.py:53-57 | `os.walk` yields each file of a tree at a path of its own, none inside another's |
| SourceTree.WalkFilesSplit | prefetch_extractor.py:53-54 | the files of a walk are those the nested loops have visited at any point, followed by the rest |
| Destination.MakeDirsOnlyAdds | bet_extractor.py:39-40 | `os.makedirs(p)` alters nothing that exists; it adds only folders on the way to p |
| Destination.MakeDirsPass | prefetch_extractor.py:59 | `os.makedirs(p, exist_ok=True)` succeeds exactly when no prefix of p exists as a file, and then p and its parents are folders |
| Destination.RmTreeOn | main.py:62 | `shutil.rmtree(p)` removes exactly p and what lies below it, keeping every other path's content |
| Destination.Snapshot | main.py:60 | the archive holds exactly the paths below the archived folder, by relative path, with their contents |
| Destination.MakeDirsRaises | teamviewer_extractor.py:55 | `os.makedirs(p, exist_ok=True)` raises FileNotFoundError exactly when a folder on the way to p exists as a file, FileExistsError exactly when the way is clear and p itself is a file, and nothing else |
| Destination.EnsureDirPass | bet_extractor.py:39-40 | `if not os.path.exists(p): os.makedirs(p)` passes when no prefix of p is a file; then p is a folder, nothing existing changed, and only prefixes of p were added |
| Destination.Volume.MakeDirs | teamviewer_extractor.py:55 | `os.makedirs` on the drive: its new map and exception are those of the makedirs function, whose exception classes MakeDirsRaises states |
| Destination.Volume.Close | teamviewer_extractor.py:88-95 | leaving the `with open(...)` block stores the manifest's final content at its path and changes nothing else |
| Destination.Volume.EnsureDir | main.py:29-30 | `if not os.path.exists(p): os.makedirs(p)` on the drive: an existing p is left as it is, otherwise makedirs with the exceptions MakeDirsRaises states |
| Destination.Volume.Copy2 | bet_extractor.py:50 | `shutil.copy2` on the drive: a source that is not a readable file, or a resolved destination that is a folder, raises PermissionError; a missing parent raises FileNotFoundError; otherwise the copy lands at the destination, or under the source's base name inside a destination folder |
| Destination.Volume.Open | teamviewer_extractor.py:88 | `open(p, 'w')` raises PermissionError on a folder and FileNotFoundError on a missing parent, and otherwise creates the file |
| Destination.Volume.MakeArchive | main.py:60 | `shutil.make_archive` on the drive: the root must be a folder, the archive's folder is created, and an archive path that is a folder raises PermissionError |
| Destination.Volume.RmTree | main.py:62 | `shutil.rmtree` on the drive |
| Mirror.CopyFile | teamviewer_extractor.py:51-62 | makedirs, copy2 and writerow for one file: the row is written exactly when the copy passes |
| Mirror.MirrorLogs | prefetch_extractor.py:53-66 | the loop adds the rows of a prefix of the files, one each in visiting order, and all of them exactly when nothing raised |
| Mirror.MirrorLands | teamviewer_extractor.py:51-56 | each file lands at the target joined with its relative path and holds its bytes; nothing on the drive is altered, and new paths lie only on the way to targets |
| Mirror.RetargetApart | teamviewer_extractor.py:52-53 | `relpath` then `join` keep two source files apart at the destination |
| Mirror.StopAtRaise | teamviewer_extractor.py:48-66 | with no per-file handler, the first exception leaves the state as it was when raised, whatever files remain |
| Mirror.LoggedThen | teamviewer_extractor.py:94-95 | the rows of two stretches of the collection, the first one passing, are the rows of both file lists |
| TeamViewer.Keep | teamviewer_extractor.py:50 | a walked file is copied exactly when its name ends in `.txt` or `.log` |
| TeamViewer.KeepAppend | teamviewer_extractor.py:48-50 | filtering the files of two stretches of the walk is filtering each |
| TeamViewer.Collected | teamviewer_extractor.py:43-50 | the files copied from a root all lie below it and end in `.txt` or `.log`; there are none when the root is missing |
| TeamViewer.SearchLogs | teamviewer_extractor.py:92-95 | the search adds the rows of a prefix of the files collected root after root, all of them exactly when nothing raised |
| TeamViewer.SearchCount | teamviewer_extractor.py:92-95 | after the header, a search that passes has written one row per collected file |
| TeamViewer.TeamViewerManifest | teamviewer_extractor.py:84-95 | teamviewer_files.csv holds the header, then the rows of a prefix of the collected files in order, all of them exactly when nothing was caught |
| TeamViewer.TeamViewerLands | teamviewer_extractor.py:51-56 | every collected file is at target_dir joined with its path relative to the search root; nothing on the drive is altered |
| TeamViewer.CopyTeamViewerFiles | teamviewer_extractor.py:70-105 | the drive and caught exception equal the collection's function; when nothing is caught `files_copied` is the number of collected files |
| TeamViewer.SearchAll | teamviewer_extractor.py:92-95 | the sum of the per-root counts is the number of rows written |
| TeamViewer.CopyFilesFromPath | teamviewer_extractor.py:29-68 | the walk loops equal the fold over the collected files; the count equals the rows added; a missing path returns 0 and changes nothing |
| TeamViewer.CopyWantedFiles | teamviewer_extractor.py:49-66 | the inner loop over one walk triple copies and logs its `.txt`/`.log` files in order |
| TeamViewer.VisitFile | teamviewer_extractor.py:50-66 | one file: copied and logged if wanted, skipped otherwise; an exception ends the triple |
| Prefetch.PrefetchFiles | prefetch_extractor.py:53-55 | every walked file lies strictly below %WINDIR%\Prefetch |
| Prefetch.PrefetchManifest | prefetch_extractor.py:47-66 | prefetch_files.csv holds the header, then the rows of a prefix of the walked files in order, all of them exactly when nothing was caught |
| Prefetch.PrefetchSpread | prefetch_extractor.py:53-57 | no two walked Prefetch files share a path or lie inside each other |
| Prefetch.PrefetchLands | prefetch_extractor.py:53-60 | every walked file, unfiltered, lands at `target_dir\Windows\<path relative to %WINDIR%>` with its bytes; nothing on the drive is altered |
| Prefetch.CopyPrefetchFiles | prefetch_extractor.py:28-74 | equals the collection's function; a missing Prefetch folder leaves the drive unchanged; the bar's total is the file count, which it reaches when nothing is caught |
| Prefetch.CopyAll | prefetch_extractor.py:44-68 | the count of copied files reaches the walk's file count when nothing raised |
| Prefetch.TotalFiles | prefetch_extractor.py:43 | the sum over the walk of the files per triple is the number of walked files |
| Prefetch.CopyWalk | prefetch_extractor.py:53-68 | the nested loops equal the fold over the walked files; pbar.update(1) runs once per row written |
| Prefetch.CopyStepFiles | prefetch_extractor.py:54-68 | the inner loop over one triple's files |
| Bet.FilesIn | bet_extractor.py:43-56 | the files the recursion meets all lie below src, none of them a directory |
| Bet.TreeLogs | bet_extractor.py:43-56 | the recursion adds the rows of a prefix of the files below src in depth-first listing order, all of them when nothing raised |
| Bet.ItemsLogs | bet_extractor.py:43-56 | the loop over the first k items adds a prefix of their files' rows in order, a subdirectory's files before later siblings |
| Bet.BetManifest | bet_extractor.py:74-79 | bet_files.csv holds the header, then the rows of a prefix of the files of C:\BET\Logs in depth-first order, all of them when nothing was caught |
| Bet.ItemsStop | bet_extractor.py:42-56 | once an exception is raised, no later item changes anything |
| Bet.RetargetChild | bet_extractor.py:44-45 | `d = dst/item` mirrors `s = src/item`: relative paths below the child match those below the parent |
| Bet.TreeLands | bet_extractor.py:39-56 | dst is created first; the recursion keeps the drive and adds only dst, its parents and paths below it; on success every file below src is at its mirrored path |
| Bet.ItemsLands | bet_extractor.py:43-50 | the first k items add paths only below their own `dst/item` targets, and on success their files are mirrored |
| Bet.FileStep | bet_extractor.py:50 | copy2 onto a fresh path in an existing folder passes exactly for a readable file and creates only that file |
| Bet.BetLands | bet_extractor.py:58-84 | nothing on the drive is altered, and on success every file below C:\BET\Logs is at `target_dir\Logs` joined with its relative path |
| Bet.MirrorsBesideManifest | bet_extractor.py:68-74 | the manifest beside `Logs` never overwrites a copied file |
| Bet.CopyBetFiles | bet_extractor.py:58-84 | equals the collection's function of the drive, with the exception the handler caught |
| Bet.CopyDirectoryWithMetadata | bet_extractor.py:29-56 | the recursive procedure equals the recursion's function of the drive and manifest |
| Bet.CopyItems | bet_extractor.py:42-56 | the loop over the listing equals the fold over its items |
| Bet.CopyItem | bet_extractor.py:44-56 | a directory is recursed into; any other item is copied and gets its row |
| DirTree.IndexOf | dir_tree_extractor.py:35 | `list.index` returns the position of the first occurrence |
| DirTree.Contents | dir_tree_extractor.py:23 | the contents are a permutation of the listing, sorted by name |
| DirTree.PointerIsLast | dir_tree_extractor.py:35-39 | with distinct names, the pointer is set exactly for the last entry, so `└── ` goes to it and `├── ` to every other |
| DirTree.RenderIgnoresListingOrder | dir_tree_extractor.py:23 | the rendering does not depend on the order os.listdir returns entries |
| DirTree.RenderPrefixed | dir_tree_extractor.py:40-45 | every line starts with the prefix of its level followed by at least four characters |
| DirTree.RenderCount | dir_tree_extractor.py:24-46 | one line per listed entry at every level, plus one sentinel line per directory that cannot be listed |
| DirTree.CountSorted | dir_tree_extractor.py:23 | sorting the listing does not change the line count |
| DirTree.ExtractWrites | dir_tree_extractor.py:67-81 | dir_tree.txt holds the rendering of the whole drive from an empty prefix, one line per entry or sentinel |
| DirTree.TextWriter.Write | dir_tree_extractor.py:42 | `f.write(line + '\n')` appends one line |
| DirTree.ProgressBar.Update | dir_tree_extractor.py:46 | `progress_bar.update(1)` advances the count by one |
| DirTree.Tree | dir_tree_extractor.py:14-52 | tree() writes exactly the rendering of the node and advances the bar once per line written |
| DirTree.TreeItems | dir_tree_extractor.py:35-52 | the loop over sorted contents writes each entry's lines in order |
| DirTree.TreeEntry | dir_tree_extractor.py:38-46 | one entry writes `prefix + connector + name`, then recurses only into a directory with the prefix extended |
| DirTree.TotalEntries | dir_tree_extractor.py:58 | the bar's total is the sum of files and subdirectories over the walk |
| DirTree.GenerateDirTree | dir_tree_extractor.py:6-65 | equals the rendering's effect on the drive; the bar's total is the walk count and it reaches the line count when nothing is caught |
| DirTree.ExtractDirTree | dir_tree_extractor.py:67-85 | only os.makedirs can raise to the caller |
| InstalledPrograms.TopLevelDirs | installed_programs_extractor.py:13 | a name is kept exactly when an entry of that name is a directory, so no files are considered |
| InstalledPrograms.SkeletonShape | installed_programs_extractor.py:15-19 | nothing is altered; everything added is an empty folder at most one level below dst; on success dst/d exists for every name |
| InstalledPrograms.SkeletonIdempotent | installed_programs_extractor.py:18-19 | running the loop again over the drive it left changes nothing |
| InstalledPrograms.TopLevelLands | installed_programs_extractor.py:4-19 | on success dst/d exists for every directory d directly under src; only empty folders are added; nothing existing changes |
| InstalledPrograms.CopyTopLevelDirectories | installed_programs_extractor.py:4-19 | equals the skeleton's function; the bar reaches the number of top-level directories when nothing raised |
| BrowserHistory.CopyLands | browser_history_extractor.py:41-45 | the parent is created when missing; the copy passes exactly for a readable file and then holds its bytes; nothing on the drive is altered but the destination, and nothing is added but the destination and folders on its way |
| BrowserHistory.FilesFirst | browser_history_extractor.py:66-73 | the candidates up to the first that is not a file, a prefix of them all, and all of them when every candidate is a file |
| BrowserHistory.TriedIsLogged | browser_history_extractor.py:45-53 | when every candidate is a file, a browser's rows are exactly the Logged prefix of its candidates |
| BrowserHistory.TriedThen | browser_history_extractor.py:87-92 | a passing stretch of the profile loop followed by another is described over both candidate lists |
| BrowserHistory.TriedStops | browser_history_extractor.py:87-92 | once an exception left the loop, the rows stay described whatever candidates follow |
| BrowserHistory.CopyLogs | browser_history_extractor.py:30-53 | the row is written exactly when the copy passes; a candidate that is a directory makes copy2 raise with no row |
| BrowserHistory.EdgeLogs | browser_history_extractor.py:64-73 | Edge writes the row of its History file exactly when it exists, is a file and is copied, and no other; a History that is a directory raises into the handler with no row |
| BrowserHistory.EdgeLands | browser_history_extractor.py:64-71 | History is copied to `target/Edge/History` only when it exists; otherwise nothing changes; only that file and folders on its way are added |
| BrowserHistory.ProfilesLog | browser_history_extractor.py:87-92 | the profile loop writes the rows of a prefix of the existing places.sqlite files in listing order, stopping before the first that is a directory; it passes exactly when all of them are files and were written |
| BrowserHistory.FirefoxLogs | browser_history_extractor.py:84-96 | Firefox writes its profiles' rows as ProfilesLog states, directory candidates included; a profiles folder that cannot be listed raises with nothing written |
| BrowserHistory.ProfilesLand | browser_history_extractor.py:87-92 | each profile with places.sqlite yields `target/Firefox/<profile>/places.sqlite`; profiles without it are skipped |
| BrowserHistory.FirefoxLands | browser_history_extractor.py:84-92 | on success every profile's places.sqlite is at its target |
| BrowserHistory.ChromeLogs | browser_history_extractor.py:107-118 | Chrome writes its History row exactly when the profile folder exists and History exists, is a file and is copied; a History that is a directory raises into the handler with no row |
| BrowserHistory.ChromeLands | browser_history_extractor.py:109-114 | History reaches `target/Chrome/History` only when both exist; otherwise nothing changes; only that file and folders on its way are added |
| BrowserHistory.BrowsersLog | browser_history_extractor.py:133-139 | Edge, Firefox, Chrome in that order after the header, each writing the rows of its own candidates up to the first that is not a file; a failing browser never stops the next |
| BrowserHistory.BrowserManifest | browser_history_extractor.py:128-139 | once browser_history.csv is open the extractor passes and the file holds the header, then the rows of Edge, Firefox and Chrome as BrowsersLog describes; with no handler catching, exactly one row per candidate file of the three browsers in turn |
| BrowserHistory.ManifestRows | browser_history_extractor.py:135-139 | the header stays the first row; when all three browsers pass the rows are the header followed by every candidate's row, browser after browser |
| BrowserHistory.CopyFileWithMetadata | browser_history_extractor.py:30-53 | equals copy_file_with_metadata's function of the drive and manifest |
| BrowserHistory.ExtractEdgeHistory | browser_history_extractor.py:55-73 | equals the Edge extractor's function |
| BrowserHistory.ExtractFirefoxHistory | browser_history_extractor.py:75-96 | equals the Firefox extractor's function |
| BrowserHistory.VisitProfiles | browser_history_extractor.py:87-92 | the profile loop equals the fold over the listed profile names |
| BrowserHistory.ProfilesStop | browser_history_extractor.py:87-92 | once an exception left the loop, later profiles change nothing |
| BrowserHistory.ExtractChromeHistory | browser_history_extractor.py:98-118 | equals the Chrome extractor's function |
| BrowserHistory.ExtractEachBrowser | browser_history_extractor.py:137-139 | the three calls, each behind its handler, always end passing |
| BrowserHistory.ExtractBrowserHistories | browser_history_extractor.py:120-144 | equals the whole extraction's function, with what its handler caught |
| Orchestrator.TargetDir | main.py:26-28 | the target is `cases/<case>_<date>/<device>/extraction_results` |
| Orchestrator.LogDir | main.py:44-46 | the log folder is `cases/<case>_<date>/<device>/logs` |
| Orchestrator.ResultsBesideLogs | main.py:27-46 | results and logs lie three levels below `cases` and neither is inside the other; since each folder reads the clock on its own, they share a case folder exactly when the two dates agree |
| Orchestrator.CreateTargetFolder | main.py:15-31 | returns the target path, created when missing |
| Orchestrator.CreateLogFolder | main.py:33-49 | returns the log path, created when missing |
| Orchestrator.ZipSeals | main.py:51-63 | if make_archive raises nothing is removed; if it passes the archive holds exactly what was below the folder, the folder is gone, and nothing else lost its content |
| Orchestrator.ZipDirectory | main.py:51-63 | make_archive, then rmtree only when it returned |
| Orchestrator.TaskSealed | main.py:86-192 | when a module's block passes, its `<Name>_export.zip` holds what the collector left and the export folder is gone |
| Bet.MissingLogsRaises | bet_extractor.py:29-84 | without C:\BET\Logs the collection raises FileNotFoundError after creating `target\Logs`, and bet_files.csv holds only the header |
| Orchestrator.MissingPrefetchFails | main.py:86-97 | without a Prefetch folder on the machine, the prefetch block raises FileNotFoundError in make_archive and changes nothing |
| Orchestrator.SelectedIn | main.py:86-179 | a module name is kept exactly when it is both known and selected |
| Orchestrator.EverySelectedRuns | main.py:86-190 | exactly the selected modules run, each once, in the fixed order, whatever the earlier ones raised |
| Orchestrator.StepExtends | main.py:86-97 | one module block keeps the earlier log entries and adds one entry of its name exactly when it is selected |
| Orchestrator.MainLogs | main.py:65-190 | if a case folder cannot be made nothing runs; otherwise the log names exactly the selected modules in main()'s order |
| Orchestrator.InstalledApart | main.py:131-138 | the two Program Files skeletons go to distinct folders and archives, none inside another |
| Orchestrator.InstalledSealed | main.py:125-151 | when the installed_programs block passes, each archive holds exactly the skeleton its copy left, and neither folder remains |
| Orchestrator.RunTask | main.py:86-190 | one module's try block equals its function of the drive |
| Orchestrator.RunInstalled | main.py:125-151 | Program Files, then Program Files (x86), then each zipped, stopping at the first exception |
| Orchestrator.Step | main.py:86-97 | a module runs only when selected, and adds one log line with what its handler caught |
| Orchestrator.RunModules | main.py:86-190 | the seven blocks in order equal the fold over Order |
| Orchestrator.RunExtraction | main.py:65-193 | main() equals its function: the two folders, each named with its own date, then the modules |

## Left out

- Reaching a path through a folder that cannot be listed: `SourceTree.Find` resolves nothing below an `Unreadable` directory. So `os.path.exists`, `os.listdir` and `os.walk` of a path below such a folder fail, where Windows lets a program with access to the path itself reach it.
- `shutil.rmtree` failing: `RmTreeOn` and `Volume.RmTree` always succeed. The case where zip_directory raises after the archive was written (a file in use below the folder) is not modelled.
- Exception classes follow Windows: os.makedirs below a file raises FileNotFoundError (POSIX would raise NotADirectoryError), and writing a file onto a folder with shutil.copy2, open(p, 'w') or shutil.make_archive raises PermissionError (POSIX would raise IsADirectoryError).
- gui.py and `__init__.py`: the Tkinter front end and the package imports are not part of this model.
- process_extractor.py is not part of this model. `save_running_processes` enters as `Host.saveProcesses`, a given function from the drive and export folder to the drive afterwards and the exception raised.
- The MD5 algorithm: a digest is the term `Md5Hex(bytes)`; chunked reading is not modelled.
- Timestamps: `getctime`/`getatime` are values stored in the source node. `shutil.copy2`'s preservation of timestamps and the access-time update on the source are not modelled; the source tree never changes.
- The zip format: an archive is the map of relative paths to contents of the folder archived. An archive that cannot be written is given by `Volume.archiveFails`, a set of base names.
- Logging, `print`, the tqdm bar's description, `input()` and the timing with `time.time()` are not modelled. The bars are counters; `logging.basicConfig` and the `extraction.log` file (main.py:79-81) are not modelled.
- `datetime.now()`, the folder of `__file__`, `%WINDIR%`, `%LOCALAPPDATA%` and `%APPDATA%` are parameters (`targetDate` and `logDate` for the two reads of the clock in create_target_folder and create_log_folder, `cases`, `Host.windir`, `Host.local`, `Host.roaming`). `os.path.abspath` and `expandvars` are not modelled.
- The `__main__` blocks of every file, including main.py's argument parsing and its top-level handler (main.py:195-207). `Orchestrator.RunExtraction` returns the exception that would reach that handler.
- Windows path semantics: paths are sequences of names compared exactly. Case-insensitive names, drive letters and separators are not modelled, and `C:\\BET\\Logs` is the path `BET\Logs`.
- Source and destination are disjoint: a target folder placed inside a tree being collected is not modelled.
- The per-entry handlers of tree() (dir_tree_extractor.py:47-52) cannot fire in the model. Writes and `os.path.isdir` do not fail, and tree() itself catches the listing faults of a subdirectory.
- Listing failures are PermissionError or FileNotFoundError (the two tree() catches). Other OSErrors, symbolic links and `os.walk`'s `onerror` are not modelled; `os.walk` skips an unreadable directory silently, as it does by default.
- Mirror.MirrorLands, TeamViewer.TeamViewerLands, Prefetch.PrefetchLands, Bet.BetLands, Bet.TreeLands, BrowserHistory.FirefoxLands, BrowserHistory.ProfilesLand: proved for a destination with nothing below it beforehand (the target folder; `target/Firefox` for the two browser lemmas; for Bet.TreeLands, `dst` is absent too), as main() arranges for a fresh case.
- TeamViewer.TeamViewerLands: stated for the single search root the code has.
- BrowserHistory.FirefoxLogs: for a profiles folder that cannot be listed, it states only that no row is written and that the extractor raises.
- BrowserHistory.FirefoxLands, BrowserHistory.EdgeLands, BrowserHistory.ChromeLands: each is proved for its browser alone. The three together, sharing one target folder, are not stated as one lemma.
- DirTree.Tree: the bar's total (a walk count) and the line count differ when a directory cannot be listed; the model states both counts, not their relation.
