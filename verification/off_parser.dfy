/** The OFF-to-point-cloud converters. A file whose name ends in `.off`
    (in any letter case) has its first line stripped of whitespace and of
    byte-order marks, and classified: exactly `OFF` puts the three counts on
    the next line and the vertices after it; `OFF` followed by the counts
    puts the vertices right after the header; anything else is skipped.
    The vertex block is `n_vertices` lines, each split into numbers.
    Python's `float()` is the parameter `parseFloat`; the file's lines are
    given as the list `readlines()` returns. */
module OffParser {
  import opened Py
  import opened Paths

  /** The byte-order mark `'﻿'`. */
  const Bom: char := '\U{FEFF}'

  /** The first line as classified: stripped, then byte-order marks
      removed. */
  function HeaderLine(first: string): (h: string)
    ensures Bom !in h
  {
    RemoveChar(Strip(first), Bom)
  }

  /** The two header forms, with the vertex and face counts. */
  datatype Header =
    | Standard(nVertices: int, nFaces: int)
    | Compact(nVertices: int, nFaces: int)
    | NotOff

  /** Where the vertex block starts: after the count line for the
      standard form, right after the header for the compact one. */
  function VertexStart(h: Header): nat
    requires !h.NotOff?
  {
    if h.Standard? then 2 else 1
  }

  /** `line.strip().split()`, which is `line.split()`. */
  function Words(line: string): (ws: seq<string>)
    ensures ws == Split(line)
  {
    SplitOfStrip(line);
    Split(Strip(line))
  }

  /** `n_vertices, n_faces, _ = map(int, parts)`: exactly three integers,
      or a `ValueError` (bad number, or too few or too many values). */
  function ParseCounts(parts: seq<string>): (r: Result<(int, int)>)
    ensures r.Err? ==> r.error == ValueError
    ensures r.Ok? <==> |parts| == 3 && forall k :: 0 <= k < 3 ==> ParseInt(parts[k]).Some?
    ensures r.Ok? ==> r.value == (ParseInt(parts[0]).value, ParseInt(parts[1]).value)
  {
    if |parts| != 3 then Err(ValueError)
    else
      var n := ParseInt(parts[0]);
      var f := ParseInt(parts[1]);
      var z := ParseInt(parts[2]);
      if n.None? || f.None? || z.None? then Err(ValueError) else Ok((n.value, f.value))
  }

  /** The header classification and count parsing of both converters. */
  function ReadHeader(lines: seq<string>): (r: Result<Header>)
    ensures |lines| == 0 ==> r.Err? && r.error == IndexError
    ensures r.Ok? && r.value.Standard? ==> HeaderLine(lines[0]) == "OFF"
    ensures r.Ok? && r.value.Compact? ==> HeaderLine(lines[0]) != "OFF" && StartsWith(HeaderLine(lines[0]), "OFF")
    ensures r.Ok? && r.value.NotOff? <==> |lines| > 0 && !StartsWith(HeaderLine(lines[0]), "OFF")
    // exactly `OFF`: the counts are the words of the second line, which must exist
    ensures |lines| > 0 && HeaderLine(lines[0]) == "OFF" ==>
      (|lines| < 2 ==> r.Err? && r.error == IndexError)
      && (|lines| >= 2 ==> (r.Ok? <==> ParseCounts(Split(lines[1])).Ok?))
    ensures |lines| >= 2 && HeaderLine(lines[0]) == "OFF" && r.Ok? ==>
      r.value == Standard(ParseCounts(Split(lines[1])).value.0, ParseCounts(Split(lines[1])).value.1)
    // `OFF` and more: the counts are the words after the three letters
    ensures |lines| > 0 && HeaderLine(lines[0]) != "OFF" && StartsWith(HeaderLine(lines[0]), "OFF") ==>
      var parts := Split(HeaderLine(lines[0])[3..]);
      (r.Ok? <==> ParseCounts(parts).Ok?)
      && (r.Ok? ==> r.value == Compact(ParseCounts(parts).value.0, ParseCounts(parts).value.1))
    ensures r.Err? ==> r.error == IndexError || r.error == ValueError
  {
    if |lines| == 0 then Err(IndexError)
    else
      var h := HeaderLine(lines[0]);
      if h == "OFF" then
        if |lines| < 2 then Err(IndexError)
        else
          var c := ParseCounts(Words(lines[1]));
          if c.Err? then Err(c.error) else Ok(Standard(c.value.0, c.value.1))
      else if StartsWith(h, "OFF") then
        var c := ParseCounts(Words(h[3..]));
        if c.Err? then Err(c.error) else Ok(Compact(c.value.0, c.value.1))
      else Ok(NotOff)
  }

  /** `[list(map(float, line.strip().split())) for line in block]`. */
  function ParseRows(block: seq<string>, parseFloat: string -> Option<real>): (r: Result<seq<seq<real>>>)
    ensures r.Err? ==> r.error == ValueError
    ensures r.Ok? <==> forall k :: 0 <= k < |block| ==> ParseFloats(Split(block[k]), parseFloat).Some?
    ensures r.Ok? ==> |r.value| == |block|
    ensures r.Ok? ==> forall k :: 0 <= k < |block| ==> r.value[k] == ParseFloats(Split(block[k]), parseFloat).value
    decreases |block|, 1
  {
    if |block| == 0 then Ok([])
    else
      var row := ParseFloats(Words(block[0]), parseFloat);
      var rest := ParseRows(block[1..], parseFloat);
      ParseRowsStep(block, parseFloat);
      if row.None? || rest.Err? then Err(ValueError)
      else Ok([row.value] + rest.value)
  }

  /** The first row read, then the rest: the block reads exactly when
      both do, and the rows are the first row's followed by the rest's. */
  lemma ParseRowsStep(block: seq<string>, parseFloat: string -> Option<real>)
    requires |block| > 0
    ensures var row := ParseFloats(Words(block[0]), parseFloat);
      var rest := ParseRows(block[1..], parseFloat);
      && (row.Some? && rest.Ok? <==> forall k :: 0 <= k < |block| ==> ParseFloats(Split(block[k]), parseFloat).Some?)
      && (row.Some? && rest.Ok? ==>
            |[row.value] + rest.value| == |block|
            && forall k :: 0 <= k < |block| ==> ([row.value] + rest.value)[k] == ParseFloats(Split(block[k]), parseFloat).value)
    decreases |block|, 0
  {
    var tail := block[1..];
    var row := ParseFloats(Words(block[0]), parseFloat);
    var rest := ParseRows(tail, parseFloat);
    assert row == ParseFloats(Split(block[0]), parseFloat);
    if row.Some? && rest.Ok? {
      ParseRowsStepValues(block, parseFloat, row.value, rest.value);
    } else if row.Some? {
      var k :| 0 <= k < |tail| && ParseFloats(Split(tail[k]), parseFloat).None?;
      assert tail[k] == block[k + 1];
    }
  }

  lemma ParseRowsStepValues(block: seq<string>, parseFloat: string -> Option<real>, first: seq<real>, rest: seq<seq<real>>)
    requires |block| > 0
    requires ParseFloats(Split(block[0]), parseFloat) == Some(first)
    requires |rest| == |block| - 1
    requires forall k :: 0 <= k < |rest| ==> ParseFloats(Split(block[1..][k]), parseFloat) == Some(rest[k])
    ensures forall k :: 0 <= k < |block| ==> ParseFloats(Split(block[k]), parseFloat) == Some(([first] + rest)[k])
  {
    var v := [first] + rest;
    forall k | 0 < k < |block|
      ensures ParseFloats(Split(block[k]), parseFloat) == Some(v[k])
    {
      assert block[1..][k - 1] == block[k];
      assert v[k] == rest[k - 1];
    }
  }

  /** The `n_vertices` lines from the vertex start, as Python slices them
      (a negative count counts from the end of the file). */
  function VertexBlock(lines: seq<string>, h: Header): (block: seq<string>)
    requires !h.NotOff?
    ensures 0 <= h.nVertices && VertexStart(h) + h.nVertices <= |lines| ==>
      block == lines[VertexStart(h)..VertexStart(h) + h.nVertices]
  {
    Slice(lines, VertexStart(h), VertexStart(h) + h.nVertices)
  }

  /** What happens to one file. */
  datatype Outcome =
    | Ignored                                   // not an `.off` name
    | Skipped                                   // not an OFF header
    | Converted(nVertices: int, nFaces: int, rows: seq<seq<real>>)

  predicate IsOffName(name: string) {
    EndsWith(Lower(name), ".off")
  }

  /** The vertex rows read from the block `block` under header `h`. */
  function Rows(h: Header, block: seq<string>, parseFloat: string -> Option<real>): (r: Result<Outcome>)
    requires !h.NotOff?
    ensures r.Err? <==> ParseRows(block, parseFloat).Err?
    ensures r.Ok? ==> r.value == Converted(h.nVertices, h.nFaces, ParseRows(block, parseFloat).value)
  {
    var rows := ParseRows(block, parseFloat);
    if rows.Err? then Err(rows.error) else Ok(Converted(h.nVertices, h.nFaces, rows.value))
  }

  /** One file of `convert_off_to_pcd` (both scripts once the vertex slice
      starts at the vertex start). */
  function ConvertFile(name: string, lines: seq<string>, parseFloat: string -> Option<real>): (r: Result<Outcome>)
    ensures !IsOffName(name) ==> r.Ok? && r.value.Ignored?
    ensures IsOffName(name) ==>
      (r.Err? <==>
        (ReadHeader(lines).Err?
         || (ReadHeader(lines).Ok? && !ReadHeader(lines).value.NotOff?
             && ParseRows(VertexBlock(lines, ReadHeader(lines).value), parseFloat).Err?)))
    ensures IsOffName(name) && ReadHeader(lines).Ok? && ReadHeader(lines).value.NotOff? ==> r.Ok? && r.value.Skipped?
    ensures IsOffName(name) && r.Ok? && r.value.Converted? ==>
      var h := ReadHeader(lines).value;
      !h.NotOff? && r.value.nVertices == h.nVertices && r.value.nFaces == h.nFaces
      && r.value.rows == ParseRows(VertexBlock(lines, h), parseFloat).value
  {
    if !IsOffName(name) then Ok(Ignored)
    else
      var h := ReadHeader(lines);
      if h.Err? then Err(h.error)
      else if h.value.NotOff? then Ok(Skipped)
      else Rows(h.value, VertexBlock(lines, h.value), parseFloat)
  }

  // ---------------------------------------------------------------------
  // The vertex slice of the dataset-conversion script, as written
  // ---------------------------------------------------------------------

  /** The dataset-conversion script slices from line 2 whatever the
      header form. */
  function VertexBlockAsWritten(lines: seq<string>, h: Header): seq<string>
    requires !h.NotOff?
  {
    Slice(lines, 2, 2 + h.nVertices)
  }

  function ConvertFileAsWritten(name: string, lines: seq<string>, parseFloat: string -> Option<real>): (r: Result<Outcome>)
    ensures !IsOffName(name) ==> r.Ok? && r.value.Ignored?
    ensures IsOffName(name) ==>
      (r.Err? <==>
        (ReadHeader(lines).Err?
         || (ReadHeader(lines).Ok? && !ReadHeader(lines).value.NotOff?
             && ParseRows(VertexBlockAsWritten(lines, ReadHeader(lines).value), parseFloat).Err?)))
    ensures IsOffName(name) && ReadHeader(lines).Ok? && ReadHeader(lines).value.NotOff? ==> r.Ok? && r.value.Skipped?
    ensures IsOffName(name) && r.Ok? && r.value.Converted? ==>
      var h := ReadHeader(lines).value;
      !h.NotOff? && r.value.nVertices == h.nVertices && r.value.nFaces == h.nFaces
      && r.value.rows == ParseRows(VertexBlockAsWritten(lines, h), parseFloat).value
  {
    if !IsOffName(name) then Ok(Ignored)
    else
      var h := ReadHeader(lines);
      if h.Err? then Err(h.error)
      else if h.value.NotOff? then Ok(Skipped)
      else Rows(h.value, VertexBlockAsWritten(lines, h.value), parseFloat)
  }

  /** For the standard header the slice is right; for the compact header
      it is the intended block shifted one line down: the first vertex is
      lost and the line after the block (the first face, in a file with
      faces) is read as a vertex. */
  lemma AsWrittenBlockShifted(lines: seq<string>, h: Header)
    requires !h.NotOff?
    ensures h.Standard? ==> VertexBlockAsWritten(lines, h) == VertexBlock(lines, h)
    ensures h.Compact? && 1 <= h.nVertices && h.nVertices + 2 <= |lines| ==>
      VertexBlockAsWritten(lines, h) == VertexBlock(lines, h)[1..] + [lines[h.nVertices + 1]]
  {
    if h.Compact? && 1 <= h.nVertices && h.nVertices + 2 <= |lines| {
      var n := h.nVertices;
      assert VertexBlockAsWritten(lines, h) == lines[2..n + 2];
      assert VertexBlock(lines, h) == lines[1..n + 1];
      assert lines[2..n + 2] == lines[1..n + 1][1..] + [lines[n + 1]];
    }
  }

  /** The header of the compact-header example reads as two vertices and
      one face. */
  lemma CompactWitnessHeader(lines: seq<string>)
    requires lines == ["OFF 2 1 0", "1 2 3", "4 5 6", "3 0 1 0"]
    ensures ReadHeader(lines) == Ok(Compact(2, 1))
  {
    var ws := CountWords(2, 1);
    assert ws == ["2", "1", "0"];
    CountWordsAreWords(2, 1);
    JoinThree(ws);
    var first := lines[0];
    assert first == "OFF " + JoinWords(ws);
    assert Bom !in first;
    HeaderLineOfTrimmed(first);
    ReadHeaderCompact(lines, ws);
  }

  /** A compact-header file with two vertices and one triangle: the
      intended block is the two vertex lines, while the slice as written
      takes the second vertex line and the face line. */
  lemma CompactHeaderWitness(lines: seq<string>)
    requires lines == ["OFF 2 1 0", "1 2 3", "4 5 6", "3 0 1 0"]
    ensures ReadHeader(lines) == Ok(Compact(2, 1))
    ensures VertexBlock(lines, Compact(2, 1)) == ["1 2 3", "4 5 6"]
    ensures VertexBlockAsWritten(lines, Compact(2, 1)) == ["4 5 6", "3 0 1 0"]
  {
    CompactWitnessHeader(lines);
    CompactWitnessBlocks(lines);
  }

  lemma CompactWitnessBlocks(lines: seq<string>)
    requires lines == ["OFF 2 1 0", "1 2 3", "4 5 6", "3 0 1 0"]
    ensures VertexBlock(lines, Compact(2, 1)) == ["1 2 3", "4 5 6"]
    ensures VertexBlockAsWritten(lines, Compact(2, 1)) == ["4 5 6", "3 0 1 0"]
  {
    assert lines[1..3] == ["1 2 3", "4 5 6"];
    assert lines[2..4] == ["4 5 6", "3 0 1 0"];
  }

  // ---------------------------------------------------------------------
  // Batches
  // ---------------------------------------------------------------------

  /** A file to convert: its base name, as `get_single_file_name` returns
      it (`os.path.basename`, so no directory part and no `/`), and its
      lines. `SplitExtRoot` is applied to this base name only, so a dot in
      a directory name never counts as the extension's dot. */
  datatype FileEntry = FileEntry(name: string, lines: seq<string>)

  /** Each file converted in turn; the first exception ends the run. */
  function ConvertEach(files: seq<FileEntry>, convert: FileEntry -> Result<Outcome>): (r: Result<seq<Outcome>>)
    ensures r.Ok? <==> forall k :: 0 <= k < |files| ==> convert(files[k]).Ok?
    ensures r.Ok? ==> |r.value| == |files| && forall k :: 0 <= k < |files| ==> r.value[k] == convert(files[k]).value
    ensures r.Err? ==> exists k :: 0 <= k < |files| && convert(files[k]) == Err(r.error)
  {
    if |files| == 0 then Ok([])
    else
      var head := convert(files[0]);
      if head.Err? then Err(head.error)
      else
        var rest := ConvertEach(files[1..], convert);
        if rest.Err? then
          assert exists k :: 0 <= k < |files[1..]| && convert(files[1..][k]) == Err(rest.error);
          Err(rest.error)
        else Ok([head.value] + rest.value)
  }

  /** `os.path.splitext(name)[0]` on a file name: the text before the
      last dot, unless only dots precede it. */
  function SplitExtRoot(name: string): (root: string)
    ensures |root| <= |name| && root == name[..|root|]
  {
    var i := RFind(name, '.');
    if i >= 0 && exists k :: 0 <= k < i && name[k] != '.' then name[..i] else name
  }

  /** The point-cloud path written for the base name `name`: its root
      plus `.pcd`, in the output directory. */
  function PcdPath(outDir: Path, name: string): Path {
    Join(outDir, FromName(SplitExtRoot(name) + ".pcd"))
  }

  lemma PcdPathOfOff(outDir: Path, stem: string)
    requires exists k :: 0 <= k < |stem| && stem[k] != '.'
    ensures SplitExtRoot(stem + ".off") == stem
  {
    var name := stem + ".off";
    var i := RFind(name, '.');
    assert name[|stem|] == '.';
    assert name[|stem| + 1] == 'o' && name[|stem| + 2] == 'f' && name[|stem| + 3] == 'f';
    assert i == |stem|;
    var k :| 0 <= k < |stem| && stem[k] != '.';
    assert name[k] == stem[k];
    assert name[..i] == stem;
  }

  /** `convert_off_to_pcd` of the demo: every file converted in turn, and
      the path of the first file's point cloud returned when that file
      was converted, None otherwise. */
  function ConvertOffToPcd(files: seq<FileEntry>, outDir: Path, parseFloat: string -> Option<real>): (r: Result<Option<Path>>)
    ensures r.Err? <==> exists k :: 0 <= k < |files| && ConvertFile(files[k].name, files[k].lines, parseFloat).Err?
    ensures r.Ok? ==> (r.value.Some? <==> |files| > 0 && ConvertFile(files[0].name, files[0].lines, parseFloat).Ok?
                                          && ConvertFile(files[0].name, files[0].lines, parseFloat).value.Converted?)
    ensures r.Ok? && r.value.Some? ==> r.value.value == PcdPath(outDir, files[0].name)
  {
    var outs := ConvertEach(files, (f: FileEntry) => ConvertFile(f.name, f.lines, parseFloat));
    if outs.Err? then Err(outs.error)
    else if |files| > 0 && outs.value[0].Converted? then Ok(Some(PcdPath(outDir, files[0].name)))
    else Ok(None)
  }

  /** The dataset-conversion script as written: every file of the
      module-level list, with the vertex slice from line 2. */
  function ConvertDatasetAsWritten(files: seq<FileEntry>, parseFloat: string -> Option<real>): (r: Result<seq<Outcome>>)
    ensures r.Ok? <==> forall k :: 0 <= k < |files| ==> ConvertFileAsWritten(files[k].name, files[k].lines, parseFloat).Ok?
    ensures r.Ok? ==> |r.value| == |files|
    ensures r.Ok? ==> forall k :: 0 <= k < |files| ==>
      r.value[k] == ConvertFileAsWritten(files[k].name, files[k].lines, parseFloat).value
  {
    ConvertEach(files, (f: FileEntry) => ConvertFileAsWritten(f.name, f.lines, parseFloat))
  }

  /** The dataset-conversion script with the vertex slice starting at the
      vertex start: the same per-file conversion as the demo. */
  function ConvertDataset(files: seq<FileEntry>, parseFloat: string -> Option<real>): (r: Result<seq<Outcome>>)
    ensures r.Ok? <==> forall k :: 0 <= k < |files| ==> ConvertFile(files[k].name, files[k].lines, parseFloat).Ok?
    ensures r.Ok? ==> |r.value| == |files|
    ensures r.Ok? ==> forall k :: 0 <= k < |files| ==>
      r.value[k] == ConvertFile(files[k].name, files[k].lines, parseFloat).value
  {
    ConvertEach(files, (f: FileEntry) => ConvertFile(f.name, f.lines, parseFloat))
  }

  // ---------------------------------------------------------------------
  // Writing OFF text, and reading it back
  // ---------------------------------------------------------------------

  /** One row of numbers as words. */
  function RenderRow(row: seq<real>, render: real -> string): (ws: seq<string>)
    ensures |ws| == |row| && forall j :: 0 <= j < |row| ==> ws[j] == render(row[j])
  {
    seq(|row|, j requires 0 <= j < |row| => render(row[j]))
  }

  /** A face line: the vertex count, then the vertex indices. */
  function FaceWords(face: seq<int>): (ws: seq<string>)
    ensures |ws| == |face| + 1
  {
    [IntToString(|face|)] + seq(|face|, j requires 0 <= j < |face| => IntToString(face[j]))
  }

  /** The count line `n_vertices n_faces 0`. */
  function CountWords(nv: nat, nf: nat): seq<string> {
    [IntToString(nv), IntToString(nf), IntToString(0)]
  }

  /** The header lines: `OFF` then the counts, or both on one line. */
  function OffHead(nv: nat, nf: nat, compact: bool): seq<string> {
    var counts := JoinWords(CountWords(nv, nf));
    if compact then ["OFF " + counts] else ["OFF", counts]
  }

  /** One line per vertex row. */
  function VertexText(vs: seq<seq<real>>, render: real -> string): (ls: seq<string>)
    ensures |ls| == |vs| && forall k :: 0 <= k < |vs| ==> ls[k] == JoinWords(RenderRow(vs[k], render))
  {
    seq(|vs|, k requires 0 <= k < |vs| => JoinWords(RenderRow(vs[k], render)))
  }

  /** One line per face. */
  function FaceText(faces: seq<seq<int>>): (ls: seq<string>)
    ensures |ls| == |faces| && forall k :: 0 <= k < |faces| ==> ls[k] == JoinWords(FaceWords(faces[k]))
  {
    seq(|faces|, k requires 0 <= k < |faces| => JoinWords(FaceWords(faces[k])))
  }

  /** An OFF file's lines, with the header in the standard form (`OFF`,
      then the counts) or the compact one (`OFF` and the counts on one
      line). */
  function OffLines(vs: seq<seq<real>>, faces: seq<seq<int>>, compact: bool, render: real -> string): (lines: seq<string>)
    ensures |lines| == (if compact then 1 else 2) + |vs| + |faces|
  {
    OffHead(|vs|, |faces|, compact) + VertexText(vs, render) + FaceText(faces)
  }

  lemma CountWordsAreWords(nv: nat, nf: nat)
    ensures var ws := CountWords(nv, nf);
      && (forall k :: 0 <= k < 3 ==> IsWord(ws[k]))
      && ParseCounts(ws).Ok? && ParseCounts(ws).value == (nv, nf)
  {
    ParseIntOfIntToString(nv);
    ParseIntOfIntToString(nf);
    ParseIntOfIntToString(0);
  }

  /** A non-empty line without a byte-order mark and with no whitespace at
      either end is its own header line. */
  lemma HeaderLineOfTrimmed(s: string)
    requires |s| > 0 && !IsSpace(s[0]) && !IsSpace(s[|s| - 1]) && Bom !in s
    ensures HeaderLine(s) == s
  {
    assert LStrip(s) == s;
    assert RStrip(s) == s;
    RemoveAbsentChar(s, Bom);
  }

  /** A header line of `OFF`, a space and the count words reads as the
      compact form with those counts. */
  lemma ReadHeaderCompact(lines: seq<string>, ws: seq<string>)
    requires |lines| > 0 && HeaderLine(lines[0]) == "OFF " + JoinWords(ws)
    requires forall k :: 0 <= k < |ws| ==> IsWord(ws[k])
    requires ParseCounts(ws).Ok?
    ensures ReadHeader(lines).Ok?
    ensures ReadHeader(lines).value == Compact(ParseCounts(ws).value.0, ParseCounts(ws).value.1)
  {
    SplitJoinWords(ws);
    CompactLineWords(HeaderLine(lines[0]), JoinWords(ws), ws);
  }

  /** `OFF`, a space and text splitting into three words: not exactly
      `OFF`, starts with it, and the rest splits into the words. */
  lemma CompactLineWords(h: string, j: string, ws: seq<string>)
    requires h == "OFF " + j && Split(j) == ws && |ws| == 3
    ensures h != "OFF" && StartsWith(h, "OFF") && Split(h[3..]) == ws
  {
    var t := " " + j;
    assert h == "OFF" + t;
    OffPrefix(t);
    SplitAfterSpace(j);
  }

  lemma OffPrefix(t: string)
    requires |t| > 0
    ensures var h := "OFF" + t;
      h != "OFF" && h[..3] == "OFF" && h[3..] == t
  {
    var h := "OFF" + t;
    assert |h| > 3;
  }

  lemma SplitAfterSpace(t: string)
    ensures Split(" " + t) == Split(t)
  {
    assert (" " + t)[1..] == t;
  }

  /** A header line of exactly `OFF` followed by a line of count words
      reads as the standard form with those counts. */
  lemma ReadHeaderStandard(lines: seq<string>, ws: seq<string>)
    requires |lines| >= 2 && HeaderLine(lines[0]) == "OFF" && lines[1] == JoinWords(ws)
    requires forall k :: 0 <= k < |ws| ==> IsWord(ws[k])
    requires ParseCounts(ws).Ok?
    ensures ReadHeader(lines).Ok?
    ensures ReadHeader(lines).value == Standard(ParseCounts(ws).value.0, ParseCounts(ws).value.1)
  {
    SplitJoinWords(ws);
  }

  /** Three words joined by spaces. */
  lemma JoinThree(ws: seq<string>)
    requires |ws| == 3
    ensures JoinWords(ws) == ws[0] + " " + ws[1] + " " + ws[2]
  {
    assert ws[1..][1..] == [ws[2]];
    assert JoinWords(ws[1..]) == ws[1] + " " + ws[2];
  }

  /** The words of integers contain no byte-order mark, and neither do
      they joined by spaces. */
  lemma CountLineHasNoBom(nv: nat, nf: nat)
    ensures var counts := JoinWords(CountWords(nv, nf));
      Bom !in counts && |counts| > 0 && counts[|counts| - 1] == '0'
  {
    var ws := CountWords(nv, nf);
    var counts := JoinWords(ws);
    JoinThree(ws);
    var a, b, c := ws[0], ws[1], ws[2];
    assert c == "0";
    assert counts == a + " " + b + " " + c;
    assert forall i :: 0 <= i < |counts| ==> counts[i] == ' ' || counts[i] == '-' || IsDigit(counts[i]) by {
      forall i | 0 <= i < |counts|
        ensures counts[i] == ' ' || counts[i] == '-' || IsDigit(counts[i])
      {
        if i < |a| {
          assert counts[i] == a[i];
        } else if i == |a| {
        } else if i < |a| + 1 + |b| {
          assert counts[i] == b[i - |a| - 1];
        } else if i == |a| + 1 + |b| {
        } else {
          assert counts[i] == c[i - |a| - |b| - 2];
        }
      }
    }
  }

  /** The header of written OFF text reads back as the form it was written
      in, with the written counts. */
  lemma ReadHeaderOfOffLines(vs: seq<seq<real>>, faces: seq<seq<int>>, compact: bool, render: real -> string)
    ensures var h := ReadHeader(OffLines(vs, faces, compact, render));
      h.Ok? && h.value == (if compact then Compact(|vs|, |faces|) else Standard(|vs|, |faces|))
  {
    var lines := OffLines(vs, faces, compact, render);
    var ws := CountWords(|vs|, |faces|);
    var counts := JoinWords(ws);
    CountWordsAreWords(|vs|, |faces|);
    CountLineHasNoBom(|vs|, |faces|);
    if compact {
      var first := "OFF " + counts;
      assert lines[0] == first;
      assert first[|first| - 1] == counts[|counts| - 1];
      HeaderLineOfTrimmed(first);
      ReadHeaderCompact(lines, ws);
    } else {
      assert lines[0] == "OFF" && lines[1] == counts;
      HeaderLineOfTrimmed("OFF");
      ReadHeaderStandard(lines, ws);
    }
  }

  /** Where each part of written OFF text sits. */
  lemma OffLinesLayout(vs: seq<seq<real>>, faces: seq<seq<int>>, compact: bool, render: real -> string)
    ensures var lines := OffLines(vs, faces, compact, render);
      var start := if compact then 1 else 2;
      && lines[start..start + |vs|] == VertexText(vs, render)
      && (forall k :: 0 <= k < |faces| ==> lines[start + |vs| + k] == FaceText(faces)[k])
  {
    var head := OffHead(|vs|, |faces|, compact);
    var body := VertexText(vs, render);
    var tail := FaceText(faces);
    var lines := OffLines(vs, faces, compact, render);
    assert lines == head + body + tail;
    assert lines[|head|..|head| + |body|] == body;
  }

  /** With a readable OFF header the file's outcome is the rows of its
      vertex block. */
  lemma ConvertFileByHeader(name: string, lines: seq<string>, parseFloat: string -> Option<real>)
    requires IsOffName(name) && ReadHeader(lines).Ok? && !ReadHeader(lines).value.NotOff?
    ensures ConvertFile(name, lines, parseFloat)
      == Rows(ReadHeader(lines).value, VertexBlock(lines, ReadHeader(lines).value), parseFloat)
  {
  }

  lemma ConvertFileAsWrittenByHeader(name: string, lines: seq<string>, parseFloat: string -> Option<real>)
    requires IsOffName(name) && ReadHeader(lines).Ok? && !ReadHeader(lines).value.NotOff?
    ensures ConvertFileAsWritten(name, lines, parseFloat)
      == Rows(ReadHeader(lines).value, VertexBlockAsWritten(lines, ReadHeader(lines).value), parseFloat)
  {
  }

  /** A rendered row reads back as the row. */
  lemma ParseFloatsOfRendered(row: seq<real>, render: real -> string, parseFloat: string -> Option<real>)
    requires forall x :: IsWord(render(x)) && parseFloat(render(x)) == Some(x)
    ensures ParseFloats(Split(JoinWords(RenderRow(row, render))), parseFloat) == Some(row)
  {
    var ws := RenderRow(row, render);
    forall j | 0 <= j < |ws|
      ensures IsWord(ws[j]) && parseFloat(ws[j]) == Some(row[j])
    {
      var x := row[j];
      assert IsWord(render(x)) && parseFloat(render(x)) == Some(x);
      assert ws[j] == render(x);
    }
    SplitJoinWords(ws);
    var r := ParseFloats(ws, parseFloat);
    assert r.Some?;
    assert r.value == row;
  }

  /** A block whose every line reads as the matching row reads as the
      rows. */
  lemma ParseRowsOfReadable(block: seq<string>, vs: seq<seq<real>>, parseFloat: string -> Option<real>)
    requires |block| == |vs| && forall k :: 0 <= k < |vs| ==> ParseFloats(Split(block[k]), parseFloat) == Some(vs[k])
    ensures ParseRows(block, parseFloat).Ok? && ParseRows(block, parseFloat).value == vs
  {
    assert forall k :: 0 <= k < |block| ==> ParseFloats(Split(block[k]), parseFloat).Some?;
    var rows := ParseRows(block, parseFloat).value;
    forall k | 0 <= k < |vs|
      ensures rows[k] == vs[k]
    {
      assert rows[k] == ParseFloats(Split(block[k]), parseFloat).value;
    }
  }

  /** Round trip: converting written OFF text, in either header form, gives
      back the written counts and exactly the written vertex rows, for a
      renderer whose words `float()` reads back. */
  lemma ConvertFileOfOffLines(name: string, vs: seq<seq<real>>, faces: seq<seq<int>>, compact: bool,
                              render: real -> string, parseFloat: string -> Option<real>)
    requires IsOffName(name)
    requires forall x :: IsWord(render(x)) && parseFloat(render(x)) == Some(x)
    ensures var r := ConvertFile(name, OffLines(vs, faces, compact, render), parseFloat);
      r.Ok? && r.value == Converted(|vs|, |faces|, vs)
  {
    var lines := OffLines(vs, faces, compact, render);
    ReadHeaderOfOffLines(vs, faces, compact, render);
    OffLinesLayout(vs, faces, compact, render);
    var h := ReadHeader(lines).value;
    var block := VertexBlock(lines, h);
    assert block == VertexText(vs, render);
    forall k | 0 <= k < |vs|
      ensures ParseFloats(Split(block[k]), parseFloat) == Some(vs[k])
    {
      ParseFloatsOfRendered(vs[k], render, parseFloat);
    }
    ParseRowsOfReadable(block, vs, parseFloat);
    ConvertFileByHeader(name, lines, parseFloat);
  }

  /** For compact written text the slice as written ends on the first
      face line. */
  lemma AsWrittenBlockEndsOnFace(vs: seq<seq<real>>, faces: seq<seq<int>>, render: real -> string)
    requires |vs| >= 1 && |faces| >= 1
    ensures var lines := OffLines(vs, faces, true, render);
      var block := VertexBlockAsWritten(lines, Compact(|vs|, |faces|));
      |block| == |vs| && block[|vs| - 1] == JoinWords(FaceWords(faces[0]))
  {
    var lines := OffLines(vs, faces, true, render);
    var n := |vs|;
    OffLinesLayout(vs, faces, true, render);
    var block := VertexBlockAsWritten(lines, Compact(n, |faces|));
    assert block == lines[2..n + 2];
    assert block[n - 1] == lines[1 + n + 0];
  }

  /** A face line splits into its count and index words. */
  lemma SplitFaceLine(face: seq<int>)
    ensures Split(JoinWords(FaceWords(face))) == FaceWords(face)
  {
    var ws := FaceWords(face);
    forall j | 0 <= j < |ws|
      ensures IsWord(ws[j])
    {
      if j > 0 {
        assert ws[j] == IntToString(face[j - 1]);
      }
    }
    SplitJoinWords(ws);
  }

  /** A compact-header file whose last row as sliced has four words does
      not convert to rows of three numbers. */
  lemma AsWrittenLastRowTooLong(name: string, lines: seq<string>, vs: seq<seq<real>>, nf: int,
                                parseFloat: string -> Option<real>)
    requires IsOffName(name) && |vs| >= 1 && |vs[|vs| - 1]| == 3
    requires ReadHeader(lines) == Ok(Compact(|vs|, nf))
    requires var block := VertexBlockAsWritten(lines, Compact(|vs|, nf));
      |block| == |vs| && |Split(block[|vs| - 1])| == 4
    ensures var r := ConvertFileAsWritten(name, lines, parseFloat);
      !(r.Ok? && r.value == Converted(|vs|, nf, vs))
  {
    var h := Compact(|vs|, nf);
    var block := VertexBlockAsWritten(lines, h);
    ConvertFileAsWrittenByHeader(name, lines, parseFloat);
    var rows := ParseRows(block, parseFloat);
    if rows.Ok? {
      assert |rows.value[|vs| - 1]| == 4;
    }
  }

  /** The slice as written breaks the round trip for the compact form:
      with at least one vertex of three coordinates and a triangle as the
      first face, the last row read is the face line's four numbers. */
  lemma ConvertFileAsWrittenMisreadsCompact(name: string, vs: seq<seq<real>>, faces: seq<seq<int>>,
                                            render: real -> string, parseFloat: string -> Option<real>)
    requires IsOffName(name)
    requires |vs| >= 1 && forall k :: 0 <= k < |vs| ==> |vs[k]| == 3
    requires |faces| >= 1 && |faces[0]| == 3
    ensures var r := ConvertFileAsWritten(name, OffLines(vs, faces, true, render), parseFloat);
      !(r.Ok? && r.value == Converted(|vs|, |faces|, vs))
  {
    var lines := OffLines(vs, faces, true, render);
    ReadHeaderOfOffLines(vs, faces, true, render);
    AsWrittenBlockEndsOnFace(vs, faces, render);
    SplitFaceLine(faces[0]);
    AsWrittenLastRowTooLong(name, lines, vs, |faces|, parseFloat);
  }
}
