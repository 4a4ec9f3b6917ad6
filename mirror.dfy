/** The per-file copy step the TeamViewer and Prefetch collectors share
    (teamviewer_extractor.py:55-62, prefetch_extractor.py:58-66): create the target's
    directory with os.makedirs(..., exist_ok=True), shutil.copy2 the file there, then
    write one manifest row. Nothing catches an error inside the loop, so the first
    failure ends the collection. */
module Mirror {
  import opened Wrappers
  import opened SourceTree
  import opened Manifest
  import opened Destination

  /** A collector part-way through: the drive, the rows written so far, and whether
      an exception is on its way out. */
  datatype Run = Run(disk: Disk, rows: seq<Row>, out: Outcome)

  /** os.path.join(into, os.path.relpath(p, base)) for a path p below base. */
  function Retarget(p: Path, base: Path, into: Path): Path
    requires base < p
  {
    into + p[|base|..]
  }

  /** Every file lies strictly below base. */
  predicate Under(fs: seq<Found>, base: Path) {
    forall f :: f in fs ==> base < f.path && f.file.File?
  }

  /** One iteration of the inner loop body on file f, unless an exception already left. */
  function MirrorStep(r: Run, f: Found, base: Path, into: Path): Run
    requires base < f.path && f.file.File?
  {
    if r.out.Raised? then r
    else
      var t := Retarget(f.path, base, into);
      var mk := MakeDirsOn(r.disk, DirName(t));
      if mk.out.Raised? then Run(mk.disk, r.rows, mk.out)
      else
        var cp := Copy2On(mk.disk, f.path, f.file, t);
        if cp.out.Raised? then Run(cp.disk, r.rows, cp.out)
        else Run(cp.disk, r.rows + [RecordOf(f)], Pass)
  }

  /** The inner loop body on one file, performed on the drive and the open manifest. */
  method CopyFile(f: Found, base: Path, into: Path, vol: Volume, writer: CsvWriter) returns (out: Outcome)
    requires base < f.path && f.file.File?
    modifies vol, writer
    ensures Run(vol.disk, writer.rows, out)
         == MirrorStep(Run(old(vol.disk), old(writer.rows), Pass), f, base, into)
    ensures writer.rows == if out == Pass then old(writer.rows) + [RecordOf(f)] else old(writer.rows)
  {
    var target := into + f.path[|base|..];
    out := vol.MakeDirs(DirName(target));
    if out.Raised? {
      return;
    }
    out := vol.Copy2(f.path, f.file, target);
    if out.Raised? {
      return;
    }
    writer.WriteRow(RecordOf(f));
  }

  /** The loop body run on fs in order, starting from r. */
  function MirrorFrom(r: Run, fs: seq<Found>, base: Path, into: Path): Run
    requires Under(fs, base)
  {
    if fs == [] then r
    else MirrorStep(MirrorFrom(r, fs[..|fs| - 1], base, into), fs[|fs| - 1], base, into)
  }

  lemma MirrorSnoc(r: Run, fs: seq<Found>, f: Found, base: Path, into: Path)
    requires Under(fs + [f], base)
    ensures Under(fs, base) && base < f.path && f.file.File?
    ensures MirrorFrom(r, fs + [f], base, into) == MirrorStep(MirrorFrom(r, fs, base, into), f, base, into)
  {
    assert f in fs + [f];
    assert (fs + [f])[..|fs|] == fs;
  }

  lemma {:induction false} MirrorRaisedStays(r: Run, fs: seq<Found>, base: Path, into: Path)
    requires Under(fs, base) && r.out.Raised?
    ensures MirrorFrom(r, fs, base, into) == r
  {
    if fs != [] {
      MirrorRaisedStays(r, fs[..|fs| - 1], base, into);
    }
  }

  lemma {:induction false} MirrorAppend(r: Run, a: seq<Found>, b: seq<Found>, base: Path, into: Path)
    requires Under(a + b, base)
    ensures Under(a, base) && Under(b, base)
    ensures MirrorFrom(r, a + b, base, into)
         == MirrorFrom(MirrorFrom(r, a, base, into), b, base, into)
    decreases |b|
  {
    assert forall i :: 0 <= i < |a| ==> a[i] == (a + b)[i];
    assert forall i :: 0 <= i < |b| ==> b[i] == (a + b)[|a| + i];
    if b == [] {
      assert a + b == a;
    } else {
      assert (a + b)[..|a + b| - 1] == a + b[..|b| - 1];
      assert (a + b)[|a + b| - 1] == b[|b| - 1];
      MirrorAppend(r, a, b[..|b| - 1], base, into);
    }
  }

  /** Stopping the loops at the first exception leaves the state that running the
      remaining iterations as no-ops would. */
  lemma StopAtRaise(r: Run, done: seq<Found>, rest: seq<Found>, base: Path, into: Path)
    requires Under(done + rest, base)
    requires Under(done, base) && MirrorFrom(r, done, base, into).out.Raised?
    ensures MirrorFrom(r, done + rest, base, into) == MirrorFrom(r, done, base, into)
  {
    MirrorAppend(r, done, rest, base, into);
    MirrorRaisedStays(MirrorFrom(r, done, base, into), rest, base, into);
  }

  /** The manifest gets one row per copied file, in order, and nothing else: the rows
      added are those of a prefix of fs, all of fs exactly when no exception left. */
  lemma {:induction false} MirrorLogs(r: Run, fs: seq<Found>, base: Path, into: Path)
    requires Under(fs, base) && r.out == Pass
    ensures RowsOfPrefix(r, MirrorFrom(r, fs, base, into), fs)
  {
    if fs == [] {
      assert fs[..0] == [];
    } else {
      var init := fs[..|fs| - 1];
      MirrorLogs(r, init, base, into);
      MirrorLogsStep(r, MirrorFrom(r, init, base, into), fs, base, into);
    }
  }

  /** The rows e adds to those of r are the rows of a prefix of fs, all of fs exactly
      when e passed. */
  predicate RowsOfPrefix(r: Run, e: Run, fs: seq<Found>)
    requires Recordable(fs)
  {
    && |r.rows| <= |e.rows| <= |r.rows| + |fs|
    && e.rows == r.rows + Records(fs[..|e.rows| - |r.rows|])
    && (e.out == Pass <==> |e.rows| == |r.rows| + |fs|)
  }

  lemma MirrorLogsStep(r: Run, m: Run, fs: seq<Found>, base: Path, into: Path)
    requires Under(fs, base) && r.out == Pass && fs != []
    requires m == MirrorFrom(r, fs[..|fs| - 1], base, into)
    requires RowsOfPrefix(r, m, fs[..|fs| - 1])
    ensures RowsOfPrefix(r, MirrorFrom(r, fs, base, into), fs)
  {
    var f := fs[|fs| - 1];
    var e := MirrorStep(m, f, base, into);
    assert e == MirrorFrom(r, fs, base, into);
    MirrorStepRows(m, f, base, into);
    RowsOfPrefixSnoc(r, m, e, fs);
  }

  /** One file: a stopped run stays as it is; a copy that passes adds that file's row,
      and one that raises adds none. */
  lemma MirrorStepRows(m: Run, f: Found, base: Path, into: Path)
    requires base < f.path && f.file.File?
    ensures var e := MirrorStep(m, f, base, into);
      && (m.out.Raised? ==> e == m)
      && (e.out == Pass ==> m.out == Pass && e.rows == m.rows + [RecordOf(f)])
      && (e.out.Raised? ==> e.rows == m.rows)
  {
  }

  /** Rows of a prefix of all but the last file, then that file's row or none, are rows
      of a prefix of all the files. */
  lemma RowsOfPrefixSnoc(r: Run, m: Run, e: Run, fs: seq<Found>)
    requires Recordable(fs) && fs != []
    requires RowsOfPrefix(r, m, fs[..|fs| - 1])
    requires m.out.Raised? ==> e == m
    requires e.out == Pass ==> m.out == Pass && e.rows == m.rows + [RecordOf(fs[|fs| - 1])]
    requires e.out.Raised? ==> e.rows == m.rows
    ensures RowsOfPrefix(r, e, fs)
  {
    var init := fs[..|fs| - 1];
    var k := |m.rows| - |r.rows|;
    assert fs[..k] == init[..k];
    if e.out == Pass {
      assert fs[..k + 1] == fs;
      RecordsSnoc(fs, k);
      Associative(r.rows, Records(fs[..k]), [RecordOf(fs[|fs| - 1])]);
    }
  }

  /** os.path.relpath then os.path.join keep two paths apart. */
  lemma RetargetApart(p: Path, q: Path, base: Path, into: Path)
    requires base < p && base < q && Apart(p, q)
    ensures Apart(Retarget(p, base, into), Retarget(q, base, into))
  {
    var a, b := p[|base|..], q[|base|..];
    assert p == base + a && q == base + b;
    PrefixCancel(base, a, b);
    PrefixCancel(base, b, a);
    PrefixCancel(into, a, b);
    PrefixCancel(into, b, a);
  }

  lemma PrefixCancel(c: Path, a: Path, b: Path)
    ensures c + a <= c + b <==> a <= b
  {
    if c + a <= c + b {
      forall i | 0 <= i < |a| ensures a[i] == b[i] {
        assert a[i] == (c + a)[|c| + i] && b[i] == (c + b)[|c| + i];
      }
    }
    if a <= b {
      forall i | 0 <= i < |c + a| ensures (c + a)[i] == (c + b)[i] {
        if i >= |c| {
          assert (c + a)[i] == a[i - |c|] && (c + b)[i] == b[i - |c|];
        }
      }
    }
  }

  // ---------------------------------------------------------------------
  // Where the copies land

  /** Where each file of fs is meant to land. */
  function Targets(fs: seq<Found>, base: Path, into: Path): (ts: seq<Path>)
    requires Under(fs, base)
    ensures |ts| == |fs|
    ensures forall i :: 0 <= i < |fs| ==> ts[i] == Retarget(fs[i].path, base, into)
  {
    seq(|fs|, i requires 0 <= i < |fs| && base < fs[i].path => Retarget(fs[i].path, base, into))
  }

  /** Whatever d0 held, d1 still holds unchanged. */
  predicate Kept(d0: Disk, d1: Disk) {
    forall q :: q in d0 ==> q in d1 && d1[q] == d0[q]
  }

  /** Every path d1 adds to d0 lies on the way to one of the targets. */
  predicate Within(d0: Disk, d1: Disk, ts: seq<Path>) {
    forall q :: q in d1 && q !in d0 ==> exists i :: 0 <= i < |ts| && q <= ts[i]
  }

  /** Each file of fs is on the drive, at its target, with its bytes. */
  predicate Landed(d: Disk, fs: seq<Found>, base: Path, into: Path)
    requires Under(fs, base)
  {
    forall i :: 0 <= i < |fs| ==>
      var t := Retarget(fs[i].path, base, into);
      t in d && d[t] == Copied(fs[i].file.data)
  }

  /** Each file of the walk lands at into joined with its path relative to base, and
      nothing that was on the drive is altered, provided no two walked paths lie on one
      branch and no target existed before. */
  lemma {:induction false} MirrorLands(r: Run, fs: seq<Found>, base: Path, into: Path)
    requires Under(fs, base) && Spread(fs)
    requires forall i :: 0 <= i < |fs| ==> Retarget(fs[i].path, base, into) !in r.disk
    ensures var e := MirrorFrom(r, fs, base, into);
      && Kept(r.disk, e.disk)
      && Within(r.disk, e.disk, Targets(fs, base, into))
      && (e.out == Pass ==> Landed(e.disk, fs, base, into))
  {
    if fs != [] {
      var n := |fs| - 1;
      var init, f := fs[..n], fs[n];
      assert Spread(init);
      MirrorLands(r, init, base, into);
      assert init + [f] == fs;
      MirrorLandsStep(r, init, f, base, into);
    }
  }

  lemma MirrorLandsStep(r: Run, init: seq<Found>, f: Found, base: Path, into: Path)
    requires Under(init, base) && Under(init + [f], base) && Spread(init + [f])
    requires forall i :: 0 <= i < |init + [f]| ==> Retarget((init + [f])[i].path, base, into) !in r.disk
    requires var m := MirrorFrom(r, init, base, into);
      && Kept(r.disk, m.disk)
      && Within(r.disk, m.disk, Targets(init, base, into))
      && (m.out == Pass ==> Landed(m.disk, init, base, into))
    ensures var e := MirrorFrom(r, init + [f], base, into);
      && Kept(r.disk, e.disk)
      && Within(r.disk, e.disk, Targets(init + [f], base, into))
      && (e.out == Pass ==> Landed(e.disk, init + [f], base, into))
  {
    var fs := init + [f];
    var n := |init|;
    assert fs[..n] == init && fs[n] == f;
    var m := MirrorFrom(r, init, base, into);
    var ts := Targets(fs, base, into);
    TargetsSnoc(init, f, base, into);
    if m.out == Pass {
      forall i | 0 <= i < n ensures ts[i] in m.disk && m.disk[ts[i]].Copied? {
        assert init[i] == fs[i];
      }
    }
    assert ts[n] == Retarget(f.path, base, into);
    assert ts[n] !in r.disk;
    MirrorStepLands(r.disk, m, f, base, into, ts);
    var e := MirrorStep(m, f, base, into);
    assert MirrorFrom(r, fs, base, into) == e;
    if e.out == Pass {
      assert m.out == Pass;
      assert Landed(m.disk, init, base, into);
      assert Kept(m.disk, e.disk) && ts[n] in e.disk && e.disk[ts[n]] == Copied(f.file.data);
      LandedSnoc(m.disk, e.disk, init, f, base, into);
    }
  }

  /** The targets of init + [f] extend those of init by f's, which lies on no branch of
      any earlier target. */
  lemma TargetsSnoc(init: seq<Found>, f: Found, base: Path, into: Path)
    requires Under(init, base) && Under(init + [f], base) && Spread(init + [f])
    ensures var ts := Targets(init + [f], base, into);
      && Targets(init, base, into) == ts[..|init|]
      && ts[|init|] == Retarget(f.path, base, into)
      && forall i :: 0 <= i < |init| ==> Apart(ts[i], ts[|init|])
  {
    var fs := init + [f];
    var n := |init|;
    assert fs[n] == f;
    var ts := Targets(fs, base, into);
    forall i | 0 <= i < n ensures Apart(ts[i], ts[n]) {
      RetargetApart(fs[i].path, f.path, base, into);
    }
  }

  /** Writing a path none of the files lands at leaves them landed. */
  lemma LandedBeside(d: Disk, fs: seq<Found>, base: Path, into: Path, p: Path, content: Obj)
    requires Under(fs, base) && Landed(d, fs, base, into)
    requires forall i :: 0 <= i < |fs| ==> Retarget(fs[i].path, base, into) != p
    ensures Landed(d[p := content], fs, base, into)
  {
  }

  lemma LandedSnoc(d: Disk, d': Disk, fs: seq<Found>, f: Found, base: Path, into: Path)
    requires Under(fs, base) && base < f.path && f.file.File?
    requires Landed(d, fs, base, into) && Kept(d, d')
    requires Retarget(f.path, base, into) in d'
    requires d'[Retarget(f.path, base, into)] == Copied(f.file.data)
    ensures Under(fs + [f], base) && Landed(d', fs + [f], base, into)
  {
    var gs := fs + [f];
    forall i | 0 <= i < |gs|
      ensures Retarget(gs[i].path, base, into) in d'
      ensures d'[Retarget(gs[i].path, base, into)] == Copied(gs[i].file.data)
    {
      if i < |fs| {
        assert gs[i] == fs[i];
      }
    }
  }

  lemma MirrorStepLands(d0: Disk, m: Run, f: Found, base: Path, into: Path, ts: seq<Path>)
    requires base < f.path && f.file.File? && |ts| > 0
    requires ts[|ts| - 1] == Retarget(f.path, base, into) && ts[|ts| - 1] !in d0
    requires forall i :: 0 <= i < |ts| - 1 ==> Apart(ts[i], ts[|ts| - 1])
    requires Kept(d0, m.disk) && Within(d0, m.disk, ts[..|ts| - 1])
    requires m.out == Pass ==>
      forall i :: 0 <= i < |ts| - 1 ==> ts[i] in m.disk && m.disk[ts[i]].Copied?
    ensures var e := MirrorStep(m, f, base, into);
      && Kept(d0, e.disk)
      && Within(d0, e.disk, ts)
      && (e.out == Pass ==>
            Kept(m.disk, e.disk) && ts[|ts| - 1] in e.disk && e.disk[ts[|ts| - 1]] == Copied(f.file.data))
  {
    WithinWider(d0, m.disk, ts);
    if m.out == Pass {
      StepPassLands(d0, m, f, base, into, ts);
    } else {
      assert MirrorStep(m, f, base, into) == m;
    }
  }

  /** A list of targets with one more entry covers at least as much. */
  lemma WithinWider(d0: Disk, d: Disk, ts: seq<Path>)
    requires |ts| > 0 && Within(d0, d, ts[..|ts| - 1])
    ensures Within(d0, d, ts)
  {
    var n := |ts| - 1;
    forall q | q in d && q !in d0 ensures exists i :: 0 <= i < |ts| && q <= ts[i] {
      var i :| 0 <= i < n && q <= ts[..n][i];
      assert q <= ts[i];
    }
  }

  lemma StepPassLands(d0: Disk, m: Run, f: Found, base: Path, into: Path, ts: seq<Path>)
    requires base < f.path && f.file.File? && |ts| > 0 && m.out == Pass
    requires ts[|ts| - 1] == Retarget(f.path, base, into) && ts[|ts| - 1] !in d0
    requires forall i :: 0 <= i < |ts| - 1 ==> Apart(ts[i], ts[|ts| - 1])
    requires Kept(d0, m.disk) && Within(d0, m.disk, ts[..|ts| - 1]) && Within(d0, m.disk, ts)
    ensures var e := MirrorStep(m, f, base, into);
      && Kept(d0, e.disk)
      && Within(d0, e.disk, ts)
      && (e.out == Pass ==>
            Kept(m.disk, e.disk) && ts[|ts| - 1] in e.disk && e.disk[ts[|ts| - 1]] == Copied(f.file.data))
  {
    var n := |ts| - 1;
    var t := ts[n];
    var e := MirrorStep(m, f, base, into);
    assert forall i :: 0 <= i < n ==> ts[..n][i] == ts[i] && !(t <= ts[i]);
    assert t !in m.disk;
    var mk := MakeDirsOn(m.disk, DirName(t));
    MakeDirsOnlyAdds(m.disk, DirName(t));
    assert !(t <= DirName(t));
    assert t !in mk.disk;
    assert forall q :: q in mk.disk && q !in m.disk ==> q <= ts[n];
    if mk.out == Pass {
      assert !IsFolder(mk.disk, t);
      var cp := Copy2On(mk.disk, f.path, f.file, t);
      if cp.out == Pass {
        assert cp.disk == mk.disk[t := Copied(f.file.data)];
        assert e.disk == cp.disk;
      } else {
        assert e.disk == mk.disk;
      }
    } else {
      assert e.disk == mk.disk;
    }
  }


  // ---------------------------------------------------------------------
  // The manifest rows a stretch of the collection writes

  /** From run r to run e, the manifest gained the rows of a prefix of fs, one per file
      and in order; all of them exactly when no exception left. */
  predicate Logged(r: Run, e: Run, fs: seq<Found>)
    requires Recordable(fs)
  {
    Appended(r.rows, e.rows, fs) && (e.out == Pass <==> |e.rows| == |r.rows| + |fs|)
  }

  /** A passing stretch followed by a logged stretch is logged over both. */
  lemma LoggedThen(r: Run, m: Run, e: Run, a: seq<Found>, b: seq<Found>)
    requires Recordable(a) && Recordable(b)
    requires Logged(r, m, a) && m.out == Pass && Logged(m, e, b)
    ensures Recordable(a + b) && Logged(r, e, a + b)
  {
    AppendedThen(r.rows, m.rows, e.rows, a, b);
  }

  /** A stretch an exception ended stays logged whatever follows it. */
  lemma LoggedStops(r: Run, m: Run, a: seq<Found>, b: seq<Found>)
    requires Recordable(a) && Recordable(b)
    requires Logged(r, m, a) && m.out.Raised?
    ensures Recordable(a + b) && Logged(r, m, a + b)
  {
    AppendedMore(r.rows, m.rows, a, b);
  }
}

