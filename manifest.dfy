/** The per-file evidence rows every collector writes through csv.writer, and
    calculate_md5 (identical in teamviewer_, bet_, prefetch_ and browser_history_extractor.py). */
module Manifest {
  import opened Wrappers
  import opened SourceTree

  /** The MD5 hex digest of some bytes, kept as a term: the algorithm is not modelled. */
  datatype Digest = Md5Hex(of: seq<bv8>)

  /** One CSV row: the header, or the five cells written for a copied file. */
  datatype Row =
    | Header
    | Record(name: string, path: Path, created: int, accessed: int, md5: Option<Digest>)

  /** The cells of the header row, in column order. */
  const HeaderCells: seq<string> :=
    ["File Name", "File Path", "Creation Date", "Last Access Date", "MD5 Checksum"]

  /** calculate_md5(path): reads the file and returns its digest, or None when the
      file cannot be opened and read; it never raises. */
  function CalculateMd5(n: Node): (r: Option<Digest>)
    ensures r.Some? <==> n.File? && n.readable
    ensures r.Some? ==> r.value == Md5Hex(n.data)
  {
    if n.File? && n.readable then Some(Md5Hex(n.data)) else None
  }

  /** writerow([file_name, source_file, getctime, getatime, calculate_md5(source_file)]) */
  function RecordOf(f: Found): Row
    requires |f.path| > 0 && f.file.File?
  {
    Record(Last(f.path), f.path, f.file.ctime, f.file.atime, CalculateMd5(f.file))
  }

  predicate Recordable(fs: seq<Found>) {
    forall i :: 0 <= i < |fs| ==> |fs[i].path| > 0 && fs[i].file.File?
  }

  /** The rows written for a sequence of copied files, one each, in order. */
  function Records(fs: seq<Found>): (rs: seq<Row>)
    requires Recordable(fs)
    ensures |rs| == |fs|
    ensures forall i :: 0 <= i < |fs| ==> rs[i] == RecordOf(fs[i])
  {
    seq(|fs|, i requires 0 <= i < |fs| => RecordOf(fs[i]))
  }

  lemma RecordsSnoc(fs: seq<Found>, k: nat)
    requires k < |fs| && Recordable(fs)
    ensures Recordable(fs[..k]) && Recordable(fs[..k + 1])
    ensures Records(fs[..k + 1]) == Records(fs[..k]) + [RecordOf(fs[k])]
  {
    assert Recordable(fs[..k]) && Recordable(fs[..k + 1]);
  }

  lemma RecordsConcat(a: seq<Found>, b: seq<Found>)
    requires Recordable(a) && Recordable(b)
    ensures Recordable(a + b) && Records(a + b) == Records(a) + Records(b)
  {
    assert Recordable(a + b) by {
      forall i | 0 <= i < |a + b| ensures |(a + b)[i].path| > 0 && (a + b)[i].file.File? {
        if i >= |a| {
          assert (a + b)[i] == b[i - |a|];
        }
      }
    }
  }

  /** From rows `before` to rows `after` the manifest gained the rows of a prefix of fs,
      one per file and in order, and nothing else. */
  predicate Appended(before: seq<Row>, after: seq<Row>, fs: seq<Found>)
    requires Recordable(fs)
  {
    && |before| <= |after| <= |before| + |fs|
    && after == before + Records(fs[..|after| - |before|])
  }

  /** Nothing written is the empty prefix. */
  lemma AppendedNone(rows: seq<Row>, fs: seq<Found>)
    requires Recordable(fs)
    ensures Appended(rows, rows, fs)
  {
    assert fs[..0] == [];
  }

  /** All of a, then a prefix of b, is a prefix of a + b. */
  lemma AppendedThen(x: seq<Row>, y: seq<Row>, z: seq<Row>, a: seq<Found>, b: seq<Found>)
    requires Recordable(a) && Recordable(b)
    requires Appended(x, y, a) && |y| == |x| + |a| && Appended(y, z, b)
    ensures Recordable(a + b) && Appended(x, z, a + b)
  {
    var k := |z| - |y|;
    assert a[..|a|] == a;
    assert (a + b)[..|a| + k] == a + b[..k];
    RecordsConcat(a, b[..k]);
    RecordsConcat(a, b);
    Associative(x, Records(a), Records(b[..k]));
  }

  /** A prefix of a is a prefix of a + b. */
  lemma AppendedMore(x: seq<Row>, y: seq<Row>, a: seq<Found>, b: seq<Found>)
    requires Recordable(a) && Recordable(b) && Appended(x, y, a)
    ensures Recordable(a + b) && Appended(x, y, a + b)
  {
    RecordsConcat(a, b);
    assert (a + b)[..|y| - |x|] == a[..|y| - |x|];
  }

  /** The csv.writer of an open manifest file: rows are only ever appended. */
  class CsvWriter {
    var rows: seq<Row>

    constructor ()
      ensures rows == []
    {
      rows := [];
    }

    method WriteRow(r: Row)
      modifies this
      ensures rows == old(rows) + [r]
    {
      rows := rows + [r];
    }
  }
}
