/** `parse_roi`: the `--roi` argument of the density CLI, either the word
    `auto` (the points' bounding box) or six numbers `xmin ymin zmin xmax
    ymax zmax` describing a box that must be non-degenerate on every axis.
    Python's `float()` is a parameter: a function from a token to its value,
    or None where `float()` raises `ValueError`. */
module Roi {
  import opened Py
  import opened Geometry

  /** A single argument spelling `auto` in any letter case. */
  predicate IsAuto(arg: seq<string>) {
    |arg| == 1 && Lower(arg[0]) == "auto"
  }

  /** The box `vals[:3], vals[3:]` of six values. */
  function BoxOf(vals: seq<real>): Box
    requires |vals| == 6
  {
    Box(Vec3(vals[0], vals[1], vals[2]), Vec3(vals[3], vals[4], vals[5]))
  }

  /** `parse_roi`. */
  function ParseRoi(arg: seq<string>, points: seq<Vec3>, parseFloat: string -> Option<real>): (r: Result<Box>)
    ensures r.Err? ==> r.error == ValueError
    // `auto`: the bounding box of the points, which fails only for no points
    ensures IsAuto(arg) ==> (r.Ok? <==> |points| > 0)
    ensures IsAuto(arg) && r.Ok? ==> r.value == Box(Lowest(points), Highest(points))
    // anything else must be six numbers
    ensures !IsAuto(arg) && |arg| != 6 ==> r.Err?
    ensures |arg| == 6 ==>
      (r.Ok? <==> (forall k :: 0 <= k < 6 ==> parseFloat(arg[k]).Some?)
                  && parseFloat(arg[0]).value < parseFloat(arg[3]).value
                  && parseFloat(arg[1]).value < parseFloat(arg[4]).value
                  && parseFloat(arg[2]).value < parseFloat(arg[5]).value)
    ensures |arg| == 6 && r.Ok? ==>
      r.value.lo == Vec3(parseFloat(arg[0]).value, parseFloat(arg[1]).value, parseFloat(arg[2]).value)
      && r.value.hi == Vec3(parseFloat(arg[3]).value, parseFloat(arg[4]).value, parseFloat(arg[5]).value)
    // an explicit box that is returned is non-degenerate
    ensures !IsAuto(arg) && r.Ok? ==> Less(r.value.lo, r.value.hi)
  {
    if IsAuto(arg) then Aabb(points)
    else if |arg| != 6 then Err(ValueError)
    else
      var vals := ParseFloats(arg, parseFloat);
      if vals.None? then Err(ValueError)
      else
        var b := BoxOf(vals.value);
        if !Less(b.lo, b.hi) then Err(ValueError) else Ok(b)
  }

  /** The six tokens a box is written as on the command line. */
  function RoiArgs(b: Box, render: real -> string): seq<string> {
    [render(b.lo.x), render(b.lo.y), render(b.lo.z), render(b.hi.x), render(b.hi.y), render(b.hi.z)]
  }

  /** Round trip: writing a non-degenerate box as six numbers that
      `float()` reads back, and parsing them, gives the box; a degenerate
      box written the same way is rejected. */
  lemma ParseRoiOfArgs(b: Box, points: seq<Vec3>, render: real -> string, parseFloat: string -> Option<real>)
    requires forall x :: parseFloat(render(x)) == Some(x)
    ensures var r := ParseRoi(RoiArgs(b, render), points, parseFloat);
      (r.Ok? <==> Less(b.lo, b.hi)) && (r.Ok? ==> r.value == b)
  {
    var arg := RoiArgs(b, render);
    assert parseFloat(arg[0]) == Some(b.lo.x) && parseFloat(arg[1]) == Some(b.lo.y) && parseFloat(arg[2]) == Some(b.lo.z);
    assert parseFloat(arg[3]) == Some(b.hi.x) && parseFloat(arg[4]) == Some(b.hi.y) && parseFloat(arg[5]) == Some(b.hi.z);
  }

  /** `arg[0].lower() == "auto"`: the spelling's letter case does not matter. */
  lemma AutoIgnoresCase()
    ensures IsAuto(["AUTO"]) && IsAuto(["Auto"]) && IsAuto(["auto"])
    ensures !IsAuto(["auto", "auto"]) && !IsAuto(["automatic"])
  {
    assert Lower("AUTO") == "auto";
    assert Lower("Auto") == "auto";
    assert Lower("auto") == "auto";
    assert |Lower("automatic")| == 9;
  }
}
