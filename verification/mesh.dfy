/** The mesh side of the octree compressor: a model's bounds and validity,
    the compression step that sizes the octree cube and feeds it every
    vertex, and the OBJ loader that keeps only `v` lines. Coordinates are
    reals; the single-precision floats of the program are bounded by
    `FloatMax` where the bounds computation depends on it. */
module Mesh {
  import opened Py
  import opened Geometry

  /** `Model`: vertex positions, their colours and the cached bounds. */
  datatype Model = Model(vertices: seq<Vec3>, colors: seq<Vec3>, minBounds: Vec3, maxBounds: Vec3)

  /** `std::numeric_limits<float>::max()`, exactly. */
  const FloatMax: real := 340282346638528859811704183484516925440.0

  /** Every coordinate is a finite single-precision value. */
  predicate InFloatRange(vs: seq<Vec3>) {
    forall k :: 0 <= k < |vs| ==> LessEq(Splat(-FloatMax), vs[k]) && LessEq(vs[k], Splat(FloatMax))
  }

  // ---------------------------------------------------------------------
  // `calculateBounds`, `isValid`
  // ---------------------------------------------------------------------

  /** The loop `minBounds = glm::min(minBounds, vertex)` from `seed`. */
  function FoldMin(vs: seq<Vec3>, seed: Vec3): (r: Vec3)
    ensures LessEq(r, seed)
    ensures forall k :: 0 <= k < |vs| ==> LessEq(r, vs[k])
    decreases |vs|
  {
    if |vs| == 0 then seed else MinVec(FoldMin(vs[..|vs| - 1], seed), vs[|vs| - 1])
  }

  /** The loop `maxBounds = glm::max(maxBounds, vertex)` from `seed`. */
  function FoldMax(vs: seq<Vec3>, seed: Vec3): (r: Vec3)
    ensures LessEq(seed, r)
    ensures forall k :: 0 <= k < |vs| ==> LessEq(vs[k], r)
    decreases |vs|
  {
    if |vs| == 0 then seed else MaxVec(FoldMax(vs[..|vs| - 1], seed), vs[|vs| - 1])
  }

  /** `calculateBounds`: zero bounds for no vertices; otherwise the
      componentwise fold seeded with the largest and lowest float. */
  function CalculateBounds(m: Model): (r: Model)
    ensures r.vertices == m.vertices && r.colors == m.colors
    ensures |m.vertices| == 0 ==> r.minBounds == Splat(0.0) && r.maxBounds == Splat(0.0)
    ensures forall k :: 0 <= k < |m.vertices| ==>
      LessEq(r.minBounds, m.vertices[k]) && LessEq(m.vertices[k], r.maxBounds)
  {
    if |m.vertices| == 0 then m.(minBounds := Splat(0.0), maxBounds := Splat(0.0))
    else m.(minBounds := FoldMin(m.vertices, Splat(FloatMax)), maxBounds := FoldMax(m.vertices, Splat(-FloatMax)))
  }

  lemma {:induction false} FoldMinIsLowest(vs: seq<Vec3>, seed: Vec3)
    requires |vs| > 0 && forall k :: 0 <= k < |vs| ==> LessEq(vs[k], seed)
    ensures FoldMin(vs, seed) == Lowest(vs)
    decreases |vs|
  {
    if |vs| > 1 {
      FoldMinIsLowest(vs[..|vs| - 1], seed);
    }
  }

  lemma {:induction false} FoldMaxIsHighest(vs: seq<Vec3>, seed: Vec3)
    requires |vs| > 0 && forall k :: 0 <= k < |vs| ==> LessEq(seed, vs[k])
    ensures FoldMax(vs, seed) == Highest(vs)
    decreases |vs|
  {
    if |vs| > 1 {
      FoldMaxIsHighest(vs[..|vs| - 1], seed);
    }
  }

  /** For finite coordinates the bounds are the per-axis minimum and
      maximum of the vertices, and each of their components is some
      vertex's component: the tightest box. */
  lemma BoundsAreExtremes(m: Model)
    requires |m.vertices| > 0 && InFloatRange(m.vertices)
    ensures var r := CalculateBounds(m);
      r.minBounds == Lowest(m.vertices) && r.maxBounds == Highest(m.vertices)
    ensures var r := CalculateBounds(m);
      forall axis :: 0 <= axis < 3 ==>
        (exists k :: 0 <= k < |m.vertices| && Coord(m.vertices[k], axis) == Coord(r.minBounds, axis))
        && (exists k :: 0 <= k < |m.vertices| && Coord(m.vertices[k], axis) == Coord(r.maxBounds, axis))
  {
    FoldMinIsLowest(m.vertices, Splat(FloatMax));
    FoldMaxIsHighest(m.vertices, Splat(-FloatMax));
    forall axis | 0 <= axis < 3
      ensures exists k :: 0 <= k < |m.vertices| && Coord(m.vertices[k], axis) == Coord(Lowest(m.vertices), axis)
      ensures exists k :: 0 <= k < |m.vertices| && Coord(m.vertices[k], axis) == Coord(Highest(m.vertices), axis)
    {
      LowestAttained(m.vertices, axis);
      HighestAttained(m.vertices, axis);
    }
  }

  /** `isValid`: some vertices, and one colour per vertex. */
  predicate IsValid(m: Model) {
    |m.vertices| > 0 && |m.vertices| == |m.colors|
  }

  // ---------------------------------------------------------------------
  // `OctreeCompressor::compress`
  // ---------------------------------------------------------------------

  /** What the octree stores per vertex. */
  datatype VertexData = VertexData(position: Vec3, color: Vec3)

  /** The compressed model: the octree's cube and depth limit, the
      vertices inserted into it in insertion order, and the model's
      bounds. */
  datatype Compressed = Compressed(
    center: Vec3, halfSize: real, maxDepth: nat,
    inserts: seq<VertexData>, minBounds: Vec3, maxBounds: Vec3)

  /** `std::max({x, y, z})`. */
  function MaxExtent(e: Vec3): (r: real)
    ensures r >= e.x && r >= e.y && r >= e.z
    ensures r == e.x || r == e.y || r == e.z
  {
    Max(Max(e.x, e.y), e.z)
  }

  /** `compress`: no result for an invalid model; otherwise a cube centred
      on the middle of the bounds, of half size 1.1 times half the largest
      extent, with every vertex inserted once, in order, with its colour. */
  function Compress(m: Model, maxDepth: nat): (r: Option<Compressed>)
    ensures r.None? <==> !IsValid(m)
    ensures r.Some? ==> r.value.center == Scale(Add(m.minBounds, m.maxBounds), 0.5)
    ensures r.Some? ==> r.value.halfSize == MaxExtent(Sub(m.maxBounds, m.minBounds)) * 0.5 * 1.1
    ensures r.Some? ==> |r.value.inserts| == |m.vertices|
    ensures r.Some? ==> forall i :: 0 <= i < |m.vertices| ==>
      r.value.inserts[i] == VertexData(m.vertices[i], m.colors[i])
    ensures r.Some? ==> r.value.minBounds == m.minBounds && r.value.maxBounds == m.maxBounds
    ensures r.Some? ==> r.value.maxDepth == maxDepth
  {
    if !IsValid(m) then None
    else
      var center := Scale(Add(m.minBounds, m.maxBounds), 0.5);
      var maxExtent := MaxExtent(Sub(m.maxBounds, m.minBounds));
      var halfSize := maxExtent * 0.5 * 1.1;
      var inserts := seq(|m.vertices|, i requires 0 <= i < |m.vertices| => VertexData(m.vertices[i], m.colors[i]));
      Some(Compressed(center, halfSize, maxDepth, inserts, m.minBounds, m.maxBounds))
  }

  /** The model read back from what was inserted, in insertion order. */
  function Restore(c: Compressed): (m: Model)
    ensures |m.vertices| == |m.colors| == |c.inserts|
    ensures forall i :: 0 <= i < |c.inserts| ==>
      m.vertices[i] == c.inserts[i].position && m.colors[i] == c.inserts[i].color
  {
    Model(seq(|c.inserts|, i requires 0 <= i < |c.inserts| => c.inserts[i].position),
          seq(|c.inserts|, i requires 0 <= i < |c.inserts| => c.inserts[i].color),
          c.minBounds, c.maxBounds)
  }

  /** Compression loses nothing: the inserted vertices, colours and kept
      bounds give back the model. */
  lemma CompressRestores(m: Model, maxDepth: nat)
    requires IsValid(m)
    ensures Compress(m, maxDepth).Some? && Restore(Compress(m, maxDepth).value) == m
  {
    var c := Compress(m, maxDepth).value;
    var back := Restore(c);
    assert back.vertices == m.vertices;
    assert back.colors == m.colors;
  }

  /** The cube's corners. */
  function CubeLow(c: Compressed): Vec3 {
    Sub(c.center, Splat(c.halfSize))
  }

  function CubeHigh(c: Compressed): Vec3 {
    Add(c.center, Splat(c.halfSize))
  }

  /** With ordered bounds the cube contains the bounds box on every axis
      (the padding keeps it 5% clear of the widest side), so every vertex
      within the bounds lies in the cube. */
  lemma CompressCovers(m: Model, maxDepth: nat)
    requires IsValid(m) && LessEq(m.minBounds, m.maxBounds)
    ensures var c := Compress(m, maxDepth).value;
      LessEq(CubeLow(c), m.minBounds) && LessEq(m.maxBounds, CubeHigh(c))
    ensures var c := Compress(m, maxDepth).value;
      forall k :: 0 <= k < |m.vertices| && LessEq(m.minBounds, m.vertices[k]) && LessEq(m.vertices[k], m.maxBounds) ==>
        LessEq(CubeLow(c), m.vertices[k]) && LessEq(m.vertices[k], CubeHigh(c))
  {
  }

  /** A model whose bounds were computed compresses into a cube holding
      every one of its vertices. */
  lemma BoundedModelFitsCube(m: Model, maxDepth: nat)
    requires IsValid(m)
    ensures var b := CalculateBounds(m);
      var c := Compress(b, maxDepth);
      c.Some? && forall k :: 0 <= k < |m.vertices| ==>
        LessEq(CubeLow(c.value), m.vertices[k]) && LessEq(m.vertices[k], CubeHigh(c.value))
  {
    var b := CalculateBounds(m);
    assert LessEq(b.minBounds, b.vertices[0]) && LessEq(b.vertices[0], b.maxBounds);
    CompressCovers(b, maxDepth);
  }

  // ---------------------------------------------------------------------
  // `OBJLoader::load`
  // ---------------------------------------------------------------------

  /** Whitespace as `operator>>` skips it in the C locale. */
  predicate IsStreamSpace(c: char) {
    c == ' ' || c == '\t' || c == '\n' || c == '\r' || c == '\U{000B}' || c == '\U{000C}'
  }

  /** The line with its leading whitespace skipped. */
  function SkipSpace(s: string): (r: string)
    ensures |r| <= |s| && r == s[|s| - |r|..]
    ensures |r| > 0 ==> !IsStreamSpace(r[0])
  {
    if |s| > 0 && IsStreamSpace(s[0]) then SkipSpace(s[1..]) else s
  }

  /** Length of the word at the front of `s`. */
  function WordLength(s: string): (n: nat)
    ensures n <= |s|
    ensures forall k :: 0 <= k < n ==> !IsStreamSpace(s[k])
    ensures n < |s| ==> IsStreamSpace(s[n])
  {
    if |s| == 0 || IsStreamSpace(s[0]) then 0 else 1 + WordLength(s[1..])
  }

  /** `iss >> type`: the first word, empty for a blank line. */
  function LineType(line: string): string {
    var s := SkipSpace(line);
    s[..WordLength(s)]
  }

  /** What the stream holds after the first word. */
  function LineRest(line: string): string {
    var s := SkipSpace(line);
    s[WordLength(s)..]
  }

  /** The colour every loaded vertex gets. */
  const Grey: Vec3 := Vec3(0.7, 0.7, 0.7)

  predicate IsVertexLine(line: string) {
    LineType(line) == "v"
  }

  /** The vertices of the `v` lines, in file order. `readVertex` stands for
      `iss >> vertex.x >> vertex.y >> vertex.z` on the rest of the line. */
  function VertexLines(lines: seq<string>, readVertex: string -> Vec3): (vs: seq<Vec3>)
    ensures |vs| <= |lines|
    ensures |vs| == 0 <==> forall k :: 0 <= k < |lines| ==> !IsVertexLine(lines[k])
    decreases |lines|
  {
    if |lines| == 0 then []
    else
      var rest := VertexLines(lines[1..], readVertex);
      if IsVertexLine(lines[0]) then [readVertex(LineRest(lines[0]))] + rest else rest
  }

  /** `load` on the file's lines: one grey vertex per `v` line, bounds
      computed at the end, and an invalid-model error when there is no
      vertex. */
  function Load(lines: seq<string>, readVertex: string -> Vec3): (r: Option<Model>)
    ensures r.Some? <==> exists k :: 0 <= k < |lines| && IsVertexLine(lines[k])
    ensures r.Some? ==> r.value.vertices == VertexLines(lines, readVertex)
    ensures r.Some? ==> |r.value.colors| == |r.value.vertices|
    ensures r.Some? ==> forall k :: 0 <= k < |r.value.colors| ==> r.value.colors[k] == Grey
    ensures r.Some? ==> forall k :: 0 <= k < |r.value.vertices| ==>
      LessEq(r.value.minBounds, r.value.vertices[k]) && LessEq(r.value.vertices[k], r.value.maxBounds)
  {
    var vs := VertexLines(lines, readVertex);
    var m := CalculateBounds(Model(vs, seq(|vs|, _ => Grey), Splat(0.0), Splat(0.0)));
    if !IsValid(m) then None else Some(m)
  }

  /** Lines are read independently: the vertices of two stretches of a
      file are those of each, one after the other. */
  lemma {:induction false} VertexLinesAppend(a: seq<string>, b: seq<string>, readVertex: string -> Vec3)
    ensures VertexLines(a + b, readVertex) == VertexLines(a, readVertex) + VertexLines(b, readVertex)
    decreases |a|
  {
    if |a| == 0 {
      assert a + b == b;
    } else {
      assert (a + b)[1..] == a[1..] + b;
      assert (a + b)[0] == a[0];
      VertexLinesAppend(a[1..], b, readVertex);
    }
  }

  /** Lines of other kinds (faces, normals, comments, blank lines) add
      nothing wherever they appear. */
  lemma OtherLinesIgnored(a: seq<string>, other: seq<string>, b: seq<string>, readVertex: string -> Vec3)
    requires forall k :: 0 <= k < |other| ==> !IsVertexLine(other[k])
    ensures VertexLines(a + other + b, readVertex) == VertexLines(a + b, readVertex)
  {
    VertexLinesAppend(a + other, b, readVertex);
    VertexLinesAppend(a, other, readVertex);
    VertexLinesAppend(a, b, readVertex);
  }

  /** The line `v <text>` a writer emits for one vertex. */
  function VertexLine(text: string): string {
    "v " + text
  }

  lemma VertexLineParts(text: string)
    ensures IsVertexLine(VertexLine(text)) && LineRest(VertexLine(text)) == " " + text
  {
    var s := VertexLine(text);
    assert SkipSpace(s) == s;
    assert WordLength(s[1..]) == 0;
    assert s[..1] == "v" && s[1..] == " " + text;
  }

  /** Write each vertex as `v` and its rendering. */
  function WriteVertices(vs: seq<Vec3>, render: Vec3 -> string): (lines: seq<string>)
    ensures |lines| == |vs|
    ensures forall k :: 0 <= k < |vs| ==> lines[k] == VertexLine(render(vs[k]))
  {
    seq(|vs|, k requires 0 <= k < |vs| => VertexLine(render(vs[k])))
  }

  lemma {:induction false} VertexLinesOfWritten(vs: seq<Vec3>, render: Vec3 -> string, readVertex: string -> Vec3)
    requires forall v :: readVertex(" " + render(v)) == v
    ensures VertexLines(WriteVertices(vs, render), readVertex) == vs
    decreases |vs|
  {
    if |vs| > 0 {
      var lines := WriteVertices(vs, render);
      var text := render(vs[0]);
      assert lines[0] == VertexLine(text);
      VertexLineParts(text);
      assert readVertex(" " + text) == vs[0];
      assert lines[1..] == WriteVertices(vs[1..], render);
      VertexLinesOfWritten(vs[1..], render, readVertex);
      assert VertexLines(lines, readVertex) == [vs[0]] + VertexLines(lines[1..], readVertex);
      assert vs == [vs[0]] + vs[1..];
    }
  }

  /** Round trip: loading the lines written for a non-empty vertex list
      gives back the same vertices in order, all grey, within their
      bounds, with a reader that reads back what the writer renders. */
  lemma LoadOfWritten(vs: seq<Vec3>, render: Vec3 -> string, readVertex: string -> Vec3)
    requires |vs| > 0
    requires forall v :: readVertex(" " + render(v)) == v
    ensures var r := Load(WriteVertices(vs, render), readVertex);
      r.Some? && r.value.vertices == vs && |r.value.colors| == |vs|
  {
    var lines := WriteVertices(vs, render);
    VertexLinesOfWritten(vs, render, readVertex);
    VertexLineParts(render(vs[0]));
    assert IsVertexLine(lines[0]);
  }

  /** A loaded model is valid and compresses into a cube holding all its
      vertices. */
  lemma LoadedModelCompresses(lines: seq<string>, readVertex: string -> Vec3, maxDepth: nat)
    requires Load(lines, readVertex).Some?
    ensures var m := Load(lines, readVertex).value;
      var c := Compress(m, maxDepth);
      c.Some? && forall k :: 0 <= k < |m.vertices| ==>
        LessEq(CubeLow(c.value), m.vertices[k]) && LessEq(m.vertices[k], CubeHigh(c.value))
  {
    var m := Load(lines, readVertex).value;
    assert LessEq(m.minBounds, m.vertices[0]) && LessEq(m.vertices[0], m.maxBounds);
    CompressCovers(m, maxDepth);
  }
}
