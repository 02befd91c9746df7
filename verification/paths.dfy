/** The `pathlib` operations the density tools use to name their outputs:
    `name`, `stem`, `with_name`, joining with `/`, and the three naming
    rules built on them (`derive_output_prefix`, the ranking CSV name, and
    `derive_auto_paths`). A path is a POSIX path: a flag for the root and
    the list of its components. */
module Paths {
  import opened Py

  datatype Path = Path(absolute: bool, parts: seq<string>)

  /** What `pathlib` keeps as a component: non-empty, no separator, and
      not `.` (which it drops). */
  predicate Component(s: string) {
    |s| > 0 && '/' !in s && s != "."
  }

  predicate ValidPath(p: Path) {
    forall k :: 0 <= k < |p.parts| ==> Component(p.parts[k])
  }

  /** `p.name`: the last component, or "" for a bare root or `.`. */
  function Name(p: Path): (n: string)
    ensures |p.parts| > 0 ==> n == p.parts[|p.parts| - 1]
    ensures |p.parts| == 0 ==> n == ""
  {
    if |p.parts| == 0 then "" else p.parts[|p.parts| - 1]
  }

  /** The position of the last `c` in `s` (`str.rfind`), or -1. */
  function RFind(s: string, c: char): (i: int)
    ensures -1 <= i < |s|
    ensures i >= 0 ==> s[i] == c
    ensures forall k :: i < k < |s| ==> s[k] != c
  {
    if |s| == 0 then -1
    else if s[|s| - 1] == c then |s| - 1
    else RFind(s[..|s| - 1], c)
  }

  /** `stem`: the name without its suffix; a leading dot or a trailing one
      does not start a suffix. */
  function Stem(name: string): (r: string)
    ensures |r| <= |name| && r == name[..|r|]
  {
    var i := RFind(name, '.');
    if 0 < i < |name| - 1 then name[..i] else name
  }

  /** `with_name`: the last component replaced; a path without a name, or
      a new name that is not a single component, is a `ValueError`. */
  function WithName(p: Path, name: string): (r: Result<Path>)
    ensures r.Err? <==> |p.parts| == 0 || !Component(name)
    ensures r.Err? ==> r.error == ValueError
    ensures r.Ok? ==> r.value.absolute == p.absolute && Parent(r.value) == Parent(p) && Name(r.value) == name
  {
    if |p.parts| == 0 || !Component(name) then Err(ValueError)
    else Ok(Path(p.absolute, p.parts[..|p.parts| - 1] + [name]))
  }

  /** The components before the name. */
  function Parent(p: Path): seq<string> {
    if |p.parts| == 0 then [] else p.parts[..|p.parts| - 1]
  }

  /** `a / b`: an absolute right-hand side replaces the left. */
  function Join(a: Path, b: Path): (r: Path)
    ensures !b.absolute ==> r.absolute == a.absolute && r.parts == a.parts + b.parts
    ensures b.absolute ==> r == b
  {
    if b.absolute then b else Path(a.absolute, a.parts + b.parts)
  }

  /** `Path(name)` for a single name; `Path("")` is `.`, with no parts. */
  function FromName(name: string): Path {
    Path(false, if name == "" then [] else [name])
  }

  // ---------------------------------------------------------------------
  // `derive_output_prefix`
  // ---------------------------------------------------------------------

  const Anchor: string := "PartAnnotation"

  /** First position of `x` in `s` (`tuple.index`). */
  function IndexOf(s: seq<string>, x: string): (i: nat)
    requires x in s
    ensures i < |s| && s[i] == x && x !in s[..i]
  {
    if s[0] == x then 0 else 1 + IndexOf(s[1..], x)
  }

  /** `derive_output_prefix`: the input's components from the first
      "PartAnnotation" on, or else only its name, placed under `outRoot`. */
  function DeriveOutputPrefix(input: Path, outRoot: Path): Path {
    var sub :=
      if Anchor in input.parts then Path(false, input.parts[IndexOf(input.parts, Anchor)..])
      else FromName(Name(input));
    Join(outRoot, sub)
  }

  /** The result is always below `outRoot`, and keeps the input's name. */
  lemma DeriveOutputPrefixBelowRoot(input: Path, outRoot: Path)
    requires ValidPath(input)
    ensures var r := DeriveOutputPrefix(input, outRoot);
      && r.absolute == outRoot.absolute
      && |outRoot.parts| <= |r.parts| && r.parts[..|outRoot.parts|] == outRoot.parts
      && (|input.parts| > 0 ==> Name(r) == Name(input))
  {
    var r := DeriveOutputPrefix(input, outRoot);
    assert r.parts[..|outRoot.parts|] == outRoot.parts;
    if |input.parts| > 0 {
      assert Component(Name(input));
    }
  }

  /** The part below `outRoot` mirrors the input from its first
      "PartAnnotation" when it has one, and is the bare name otherwise. */
  lemma DeriveOutputPrefixMirrors(input: Path, outRoot: Path)
    requires ValidPath(input)
    ensures var r := DeriveOutputPrefix(input, outRoot);
      var below := r.parts[|outRoot.parts|..];
      && (Anchor in input.parts ==>
            exists i :: 0 <= i < |input.parts| && Anchor !in input.parts[..i] && below == input.parts[i..])
      && (Anchor !in input.parts && |input.parts| > 0 ==> below == [Name(input)])
      && (Anchor in below <==> Anchor in input.parts)
  {
    var r := DeriveOutputPrefix(input, outRoot);
    var below := r.parts[|outRoot.parts|..];
    if Anchor in input.parts {
      var i := IndexOf(input.parts, Anchor);
      assert below == input.parts[i..];
      assert below[0] == Anchor;
    } else if |input.parts| > 0 {
      assert Component(Name(input));
      assert below == [Name(input)];
      assert Name(input) in input.parts;
    } else {
      assert below == [];
    }
  }

  // ---------------------------------------------------------------------
  // Names built from a stem
  // ---------------------------------------------------------------------

  /** `stem + tail` where `tail` is `"." + extension` and has no other
      dot: the stem comes back. */
  lemma StemOfSuffixed(stem: string, ext: string)
    requires |stem| > 0 && |ext| > 0 && '.' !in ext
    ensures Stem(stem + "." + ext) == stem
  {
    var name := stem + "." + ext;
    assert name[|stem|] == '.';
    assert forall k :: |stem| < k < |name| ==> name[k] == ext[k - |stem| - 1];
    RFindLast(name, '.', |stem|);
    assert name[..|stem|] == stem;
  }

  lemma RFindLast(s: string, c: char, i: nat)
    requires i < |s| && s[i] == c
    requires forall k :: i < k < |s| ==> s[k] != c
    ensures RFind(s, c) == i
    decreases |s|
  {
    if i < |s| - 1 {
      RFindLast(s[..|s| - 1], c, i);
    }
  }

  /** A name made of a valid component's stem and separator-free text is a
      valid component. */
  lemma ComponentOfStem(name: string, tail: string)
    requires Component(name) && '/' !in tail && |tail| > 1
    ensures Component(Stem(name) + tail)
  {
    var s := Stem(name);
    assert forall k :: 0 <= k < |s| ==> s[k] == name[k];
    var r := s + tail;
    forall k | 0 <= k < |r|
      ensures r[k] != '/'
    {
      if k < |s| {
        assert r[k] == name[k];
      } else {
        assert r[k] == tail[k - |s|];
      }
    }
  }

  // ---------------------------------------------------------------------
  // The ranking CSV name
  // ---------------------------------------------------------------------

  /** `<stem>_lowest<k>.csv` beside the prefix. */
  function LowestCsvPath(prefix: Path, k: int): Result<Path> {
    WithName(prefix, Stem(Name(prefix)) + "_lowest" + IntToString(k) + ".csv")
  }

  lemma IntToStringNoSeparator(k: int)
    ensures '/' !in IntToString(k) && '.' !in IntToString(k)
  {
    var s := NatToString(if k < 0 then -k else k);
    assert forall j :: 0 <= j < |s| ==> IsDigit(s[j]);
    assert IntToString(k) == if k < 0 then "-" + s else s;
  }

  /** The CSV sits beside the prefix, and its name reads back as the
      prefix's stem, the marker and `k`. */
  lemma LowestCsvPathNamesK(prefix: Path, k: int)
    requires ValidPath(prefix)
    ensures LowestCsvPath(prefix, k).Err? <==> |prefix.parts| == 0
    ensures var r := LowestCsvPath(prefix, k);
      r.Ok? ==>
        && r.value.absolute == prefix.absolute && Parent(r.value) == Parent(prefix)
        && EndsWith(Name(r.value), ".csv")
        && var stem := Stem(Name(r.value));
           var head := Stem(Name(prefix)) + "_lowest";
           |head| <= |stem| && stem[..|head|] == head && ParseInt(stem[|head|..]) == Some(k)
  {
    var digits := IntToString(k);
    IntToStringNoSeparator(k);
    var head := Stem(Name(prefix)) + "_lowest";
    var name := head + digits + ".csv";
    if |prefix.parts| > 0 {
      assert Component(Name(prefix));
      assert '/' !in "_lowest" + digits + ".csv";
      assert name == Stem(Name(prefix)) + ("_lowest" + digits + ".csv");
      ComponentOfStem(Name(prefix), "_lowest" + digits + ".csv");
      assert name == (head + digits) + "." + "csv";
      StemOfSuffixed(head + digits, "csv");
      assert name[|name| - 4..] == ".csv";
      assert (head + digits)[|head|..] == digits;
      ParseIntOfIntToString(k);
    } else {
      assert Name(prefix) == "";
    }
  }

  // ---------------------------------------------------------------------
  // `derive_auto_paths`
  // ---------------------------------------------------------------------

  /** `<stem>_alpha.ply` for the alpha-shape mode and `<stem>_boxes.ply`
      for any other mode. */
  function MeshName(stem: string, mode: string): string {
    stem + "_" + (if mode == "alpha" then "alpha" else "boxes") + ".ply"
  }

  /** `<stem>_density_<proj>.png`. */
  function MapName(stem: string, proj: string): string {
    stem + "_density_" + proj + ".png"
  }

  /** `derive_auto_paths`: the mesh file and the density-map file, both
      beside the input. */
  function DeriveAutoPaths(input: Path, mode: string, proj: string): Result<(Path, Path)> {
    var stem := Stem(Name(input));
    var mesh := WithName(input, MeshName(stem, mode));
    var densityMap := WithName(input, MapName(stem, proj));
    if mesh.Err? then Err(mesh.error)
    else if densityMap.Err? then Err(densityMap.error)
    else Ok((mesh.value, densityMap.value))
  }

  /** The mesh name is a valid file name that says which mode built it. */
  lemma MeshNameTagged(name: string, mode: string)
    requires Component(name)
    ensures var m := MeshName(Stem(name), mode);
      && Component(m) && EndsWith(m, ".ply")
      && (EndsWith(m, "_alpha.ply") <==> mode == "alpha")
  {
    var stem := Stem(name);
    var tail := if mode == "alpha" then "_alpha.ply" else "_boxes.ply";
    var m := MeshName(stem, mode);
    assert m == stem + tail;
    ComponentOfStem(name, tail);
    EndsWithAppend(stem, tail);
    EndsWithAppend(stem + tail[..6], ".ply");
    assert m == stem + tail[..6] + ".ply";
  }

  lemma EndsWithAppend(a: string, b: string)
    ensures EndsWith(a + b, b)
  {
    assert (a + b)[|a + b| - |b|..] == b;
  }

  /** The map name is a valid file name exactly when the projection name
      has no separator, and it ends with the projection. */
  lemma MapNameTagged(name: string, proj: string)
    requires Component(name)
    ensures var m := MapName(Stem(name), proj);
      && (Component(m) <==> '/' !in proj)
      && EndsWith(m, "_density_" + proj + ".png")
  {
    var stem := Stem(name);
    var tail := "_density_" + proj + ".png";
    var m := MapName(stem, proj);
    assert m == stem + tail;
    EndsWithAppend(stem, tail);
    if '/' !in proj {
      assert '/' !in tail;
      ComponentOfStem(name, tail);
    } else {
      var j :| 0 <= j < |proj| && proj[j] == '/';
      assert m[|stem| + 9 + j] == '/';
    }
  }

  /** Both outputs are beside the input; the mesh name says which mode
      built it. A projection name with a separator in it cannot be made a
      file name. */
  lemma DeriveAutoPathsBeside(input: Path, mode: string, proj: string)
    requires ValidPath(input)
    ensures var r := DeriveAutoPaths(input, mode, proj);
      && (r.Err? <==> |input.parts| == 0 || '/' in proj)
      && (r.Ok? ==>
            && r.value.0.absolute == input.absolute && Parent(r.value.0) == Parent(input)
            && r.value.1.absolute == input.absolute && Parent(r.value.1) == Parent(input)
            && (EndsWith(Name(r.value.0), "_alpha.ply") <==> mode == "alpha")
            && EndsWith(Name(r.value.0), ".ply") && EndsWith(Name(r.value.1), "_density_" + proj + ".png"))
  {
    if |input.parts| > 0 {
      assert Component(Name(input));
      MeshNameTagged(Name(input), mode);
      MapNameTagged(Name(input), proj);
    }
  }
}
