/** The action catalog of the streaming agent: the nested enumeration of
    (bitrate tier,) fovea size, blend size and the three super-resolution
    depths, kept only when the looked-up depths strictly decrease from the
    fovea outwards, and the positional decoding of an action id. */
module ActionCatalog {
  import opened Py

  /** The three depth lists the innermost loops index into. */
  datatype DepthTables = DepthTables(fovea: seq<int>, blend: seq<int>, peri: seq<int>)

  /** `depth_fovea_list`, `depth_blend_list` and `depth_peri_list`. */
  const Depths: DepthTables := DepthTables([6, 7, 8, 9, 10], [3, 4, 5, 6, 7], [1, 2, 3, 4, 5])
  /** `[x / 12 for x in [0, 1, 2, 3, 4, 5]]`; the enumeration only ever uses
      the first five. */
  const SizeList: seq<real> := [0.0, 1.0 / 12.0, 2.0 / 12.0, 3.0 / 12.0, 4.0 / 12.0, 5.0 / 12.0]

  /** A catalog entry is the positional list the source stores:
      `[sf, sb, df, db, dp]`, or `[b, sf, sb, df, db, dp]`. */
  type Entry = seq<int>

  /** The filter of the innermost loop: it compares the looked-up depth
      values, not the indices. */
  predicate Admissible(t: DepthTables, df: int, db: int, dp: int)
    requires Loopable(t) && 0 <= df < 5 && 0 <= db < 5 && 0 <= dp < 5
  {
    t.fovea[df] > t.blend[db] > t.peri[dp]
  }

  /** The loops run `range(5)` over each list, so each must have five
      entries for the lookups to succeed. */
  predicate Loopable(t: DepthTables) {
    |t.fovea| >= 5 && |t.blend| >= 5 && |t.peri| >= 5
  }

  // ---------------------------------------------------------------------
  // The loops, one function per loop level
  // ---------------------------------------------------------------------

  function PeriLoop(t: DepthTables, df: int, db: int, dp: int): seq<Entry>
    requires Loopable(t) && 0 <= df < 5 && 0 <= db < 5 && 0 <= dp <= 5
    decreases |t.peri| - dp
  {
    if dp == 5 then []
    else (if Admissible(t, df, db, dp) then [[df, db, dp]] else []) + PeriLoop(t, df, db, dp + 1)
  }

  function BlendLoop(t: DepthTables, df: int, db: int): seq<Entry>
    requires Loopable(t) && 0 <= df < 5 && 0 <= db <= 5
    decreases |t.blend| - db
  {
    if db == 5 then [] else PeriLoop(t, df, db, 0) + BlendLoop(t, df, db + 1)
  }

  function DepthLoop(t: DepthTables, df: int): seq<Entry>
    requires Loopable(t) && 0 <= df <= 5
    decreases |t.fovea| - df
  {
    if df == 5 then [] else BlendLoop(t, df, 0) + DepthLoop(t, df + 1)
  }

  /** The admissible `[df, db, dp]` triples in loop order. */
  function DepthTriples(t: DepthTables): seq<Entry>
    requires Loopable(t)
  {
    DepthLoop(t, 0)
  }

  /** `p` put in front of every entry (the scratch list `combi` holding the
      outer loop variables when an entry is appended). */
  function Prepend(p: Entry, s: seq<Entry>): (r: seq<Entry>)
    ensures |r| == |s|
    ensures forall i :: 0 <= i < |s| ==> r[i] == p + s[i]
  {
    seq(|s|, i requires 0 <= i < |s| => p + s[i])
  }

  /** `for size_blend in range(sb, 5)`, below the outer prefix `p + [sf]`.
      The three inner loops do not depend on the outer ones, so each size
      pair contributes the same block `triples` of depth triples. */
  function SizeBlendLoop(triples: seq<Entry>, p: Entry, sf: int, sb: int): seq<Entry>
    requires 0 <= sb <= 5
    // `|triples|` in the measure (here and below) keeps the verifier from
    // unrolling a loop completely whenever it starts from a literal index.
    decreases 5 - sb, |triples|
  {
    if sb == 5 then [] else Prepend(p + [sf, sb], triples) + SizeBlendLoop(triples, p, sf, sb + 1)
  }

  /** `for size_fovea in range(sf, 5)`, with the blend size starting at the
      fovea size. */
  function SizeFoveaLoop(triples: seq<Entry>, p: Entry, sf: int): seq<Entry>
    requires 0 <= sf <= 5
    decreases 5 - sf, |triples|
  {
    if sf == 5 then [] else SizeBlendLoop(triples, p, sf, sf) + SizeFoveaLoop(triples, p, sf + 1)
  }

  /** `for bitrate in range(b, 4)` of `ours_combination`. */
  function BitrateLoop(triples: seq<Entry>, b: int): seq<Entry>
    requires 0 <= b <= 4
    decreases 4 - b, |triples|
  {
    if b == 4 then [] else SizeFoveaLoop(triples, [b], 0) + BitrateLoop(triples, b + 1)
  }

  /** `focas_combination()` over the depth tables `t` (the program uses
      `Depths`). */
  function FocasCombination(t: DepthTables): seq<Entry>
    requires Loopable(t)
  {
    SizeFoveaLoop(DepthTriples(t), [], 0)
  }

  /** `ours_combination()` over the depth tables `t`. */
  function OursCombination(t: DepthTables): seq<Entry>
    requires Loopable(t)
  {
    BitrateLoop(DepthTriples(t), 0)
  }

  // ---------------------------------------------------------------------
  // What the catalog contains
  // ---------------------------------------------------------------------

  predicate DepthIndices(t: DepthTables, u: Entry)
    requires Loopable(t)
  {
    |u| == 3 && 0 <= u[0] < 5 && 0 <= u[1] < 5 && 0 <= u[2] < 5 && Admissible(t, u[0], u[1], u[2])
  }

  /** `[sf, sb, df, db, dp]` with every index in 0..4, `sf <= sb`, and the
      looked-up depths strictly decreasing. */
  predicate FocasEntry(t: DepthTables, e: Entry)
    requires Loopable(t)
  {
    |e| == 5 && 0 <= e[0] <= e[1] < 5 && DepthIndices(t, e[2..])
  }

  /** `[b, sf, sb, df, db, dp]`: a bitrate tier in 0..3 before a FOCAS entry. */
  predicate OursEntry(t: DepthTables, e: Entry)
    requires Loopable(t)
  {
    |e| == 6 && 0 <= e[0] < 4 && FocasEntry(t, e[1..])
  }

  lemma {:induction false} PeriLoopMembers(t: DepthTables, df: int, db: int, dp: int, u: Entry)
    requires Loopable(t) && 0 <= df < 5 && 0 <= db < 5 && 0 <= dp <= 5
    ensures u in PeriLoop(t, df, db, dp) <==>
      |u| == 3 && u[0] == df && u[1] == db && dp <= u[2] < 5 && Admissible(t, df, db, u[2])
    decreases 5 - dp
  {
    if dp < 5 {
      PeriLoopMembers(t, df, db, dp + 1, u);
      if |u| == 3 && u[0] == df && u[1] == db && u[2] == dp {
        assert u == [df, db, dp];
      }
    }
  }

  lemma {:induction false} BlendLoopMembers(t: DepthTables, df: int, db: int, u: Entry)
    requires Loopable(t) && 0 <= df < 5 && 0 <= db <= 5
    ensures u in BlendLoop(t, df, db) <==>
      |u| == 3 && u[0] == df && db <= u[1] < 5 && 0 <= u[2] < 5 && Admissible(t, df, u[1], u[2])
    decreases 5 - db
  {
    if db < 5 {
      assert BlendLoop(t, df, db) == PeriLoop(t, df, db, 0) + BlendLoop(t, df, db + 1);
      PeriLoopMembers(t, df, db, 0, u);
      BlendLoopMembers(t, df, db + 1, u);
    }
  }

  lemma {:induction false} DepthLoopMembers(t: DepthTables, df: int, u: Entry)
    requires Loopable(t) && 0 <= df <= 5
    ensures u in DepthLoop(t, df) <==> DepthIndices(t, u) && df <= u[0]
    decreases 5 - df
  {
    if df < 5 {
      BlendLoopMembers(t, df, 0, u);
      DepthLoopMembers(t, df + 1, u);
      if |u| == 3 && u[0] == df {
        assert DepthIndices(t, u) <==> 0 <= u[1] < 5 && 0 <= u[2] < 5 && Admissible(t, df, u[1], u[2]);
      }
    }
  }

  /** Every admissible depth triple is enumerated, and nothing else. */
  lemma DepthTriplesMembers(t: DepthTables, u: Entry)
    requires Loopable(t)
    ensures u in DepthTriples(t) <==> DepthIndices(t, u)
  {
    DepthLoopMembers(t, 0, u);
  }

  lemma PrependMembers(p: Entry, s: seq<Entry>, e: Entry)
    ensures e in Prepend(p, s) <==> |p| <= |e| && e[..|p|] == p && e[|p|..] in s
  {
    if |p| <= |e| && e[..|p|] == p && e[|p|..] in s {
      var i :| 0 <= i < |s| && s[i] == e[|p|..];
      assert e == p + s[i];
    }
    if e in Prepend(p, s) {
      var i :| 0 <= i < |s| && Prepend(p, s)[i] == e;
      assert e[|p|..] == s[i];
    }
  }

  lemma {:induction false} SizeBlendLoopMembers(triples: seq<Entry>, sf: int, sb: int, v: Entry)
    requires 0 <= sb <= 5
    ensures v in SizeBlendLoop(triples, [], sf, sb) <==>
      |v| >= 2 && v[0] == sf && sb <= v[1] < 5 && v[2..] in triples
    decreases 5 - sb
  {
    if sb < 5 {
      SizeBlendLoopMembers(triples, sf, sb + 1, v);
      var q: Entry := [sf, sb];
      assert [] + [sf, sb] == q;
      PrependMembers(q, triples, v);
      if |v| >= 2 && v[0] == sf && v[1] == sb {
        assert v[..2] == q;
      }
    }
  }

  lemma {:induction false} SizeFoveaLoopMembers(triples: seq<Entry>, sf: int, v: Entry)
    requires 0 <= sf <= 5
    ensures v in SizeFoveaLoop(triples, [], sf) <==>
      |v| >= 2 && sf <= v[0] <= v[1] < 5 && v[2..] in triples
    decreases 5 - sf
  {
    if sf < 5 {
      SizeFoveaLoopMembers(triples, sf + 1, v);
      SizeBlendLoopMembers(triples, sf, sf, v);
    }
  }

  /** `focas_combination` holds exactly the well-formed FOCAS entries: every
      index in 0..4 (so size index 5 never occurs), `sf <= sb`, and strictly
      decreasing looked-up depths; and every such entry is present. */
  lemma FocasMembers(t: DepthTables, e: Entry)
    requires Loopable(t)
    ensures e in FocasCombination(t) <==> FocasEntry(t, e)
  {
    SizeFoveaLoopMembers(DepthTriples(t), 0, e);
    if |e| >= 2 {
      DepthTriplesMembers(t, e[2..]);
    }
  }

  lemma PrependConcat(p: Entry, a: seq<Entry>, b: seq<Entry>)
    ensures Prepend(p, a + b) == Prepend(p, a) + Prepend(p, b)
  {
  }

  lemma PrependPrepend(q: Entry, p: Entry, s: seq<Entry>)
    ensures Prepend(q, Prepend(p, s)) == Prepend(q + p, s)
  {
    forall i | 0 <= i < |s|
      ensures Prepend(q, Prepend(p, s))[i] == Prepend(q + p, s)[i]
    {
      assert q + (p + s[i]) == (q + p) + s[i];
    }
  }

  lemma {:induction false} SizeBlendLoopPrefix(triples: seq<Entry>, p: Entry, sf: int, sb: int)
    requires 0 <= sb <= 5
    ensures SizeBlendLoop(triples, p, sf, sb) == Prepend(p, SizeBlendLoop(triples, [], sf, sb))
    decreases 5 - sb
  {
    if sb < 5 {
      SizeBlendLoopPrefix(triples, p, sf, sb + 1);
      var q: Entry := [sf, sb];
      assert [] + [sf, sb] == q;
      PrependConcat(p, Prepend(q, triples), SizeBlendLoop(triples, [], sf, sb + 1));
      PrependPrepend(p, q, triples);
    }
  }

  lemma {:induction false} SizeFoveaLoopPrefix(triples: seq<Entry>, p: Entry, sf: int)
    requires 0 <= sf <= 5
    ensures SizeFoveaLoop(triples, p, sf) == Prepend(p, SizeFoveaLoop(triples, [], sf))
    decreases 5 - sf
  {
    if sf < 5 {
      SizeFoveaLoopPrefix(triples, p, sf + 1);
      SizeBlendLoopPrefix(triples, p, sf, sf);
      PrependConcat(p, SizeBlendLoop(triples, [], sf, sf), SizeFoveaLoop(triples, [], sf + 1));
    }
  }

  /** The block of tier `b` is the FOCAS enumeration with `b` in front. */
  lemma TierSplit(triples: seq<Entry>, b: int)
    requires 0 <= b < 4
    ensures BitrateLoop(triples, b) == Prepend([b], SizeFoveaLoop(triples, [], 0)) + BitrateLoop(triples, b + 1)
  {
    SizeFoveaLoopPrefix(triples, [b], 0);
  }

  /** Tiers `b`..3, each a copy of the catalog `f` with the tier in front. */
  function Tiers(f: seq<Entry>, b: int): seq<Entry>
    requires 0 <= b <= 4
    decreases 4 - b, |f|
  {
    if b == 4 then [] else Prepend([b], f) + Tiers(f, b + 1)
  }

  lemma {:induction false} BitrateLoopTiers(triples: seq<Entry>, b: int)
    requires 0 <= b <= 4
    ensures BitrateLoop(triples, b) == Tiers(SizeFoveaLoop(triples, [], 0), b)
    decreases 4 - b
  {
    if b < 4 {
      TierSplit(triples, b);
      BitrateLoopTiers(triples, b + 1);
    }
  }

  /** `ours_combination` is `focas_combination` four times over, with the
      bitrate tier 0, 1, 2, 3 in front of each copy. */
  lemma OursTiers(t: DepthTables)
    requires Loopable(t)
    ensures OursCombination(t) == Tiers(FocasCombination(t), 0)
  {
    BitrateLoopTiers(DepthTriples(t), 0);
  }

  lemma {:induction false} TiersMembers(f: seq<Entry>, b: int, e: Entry)
    requires 0 <= b <= 4
    ensures e in Tiers(f, b) <==> |e| >= 1 && b <= e[0] < 4 && e[1..] in f
    decreases 4 - b
  {
    if b < 4 {
      TiersMembers(f, b + 1, e);
      PrependMembers([b], f, e);
      if |e| >= 1 && e[0] == b {
        assert e[..1] == [b];
      }
    }
  }

  lemma TierMember(f: seq<Entry>, e: Entry, inner: bool)
    requires |e| >= 1 ==> (e[1..] in f <==> inner)
    ensures e in Tiers(f, 0) <==> |e| >= 1 && 0 <= e[0] < 4 && inner
  {
    TiersMembers(f, 0, e);
  }

  /** `ours_combination` holds exactly the well-formed entries with a
      bitrate tier in front. */
  lemma OursMembers(t: DepthTables, e: Entry)
    requires Loopable(t)
    ensures e in OursCombination(t) <==> OursEntry(t, e)
  {
    var inner := |e| >= 1 && FocasEntry(t, e[1..]);
    if |e| >= 1 {
      FocasMembers(t, e[1..]);
    }
    OursTiers(t);
    TierMember(FocasCombination(t), e, inner);
  }

  // ---------------------------------------------------------------------
  // Cardinality and the block structure
  // ---------------------------------------------------------------------

  /** Tables under which `db < df + 3` and `dp < db + 2` decide
      admissibility, as they do for the program's tables. */
  ghost predicate SteppedTables(t: DepthTables) {
    Loopable(t)
    && forall df, db, dp :: 0 <= df < 5 && 0 <= db < 5 && 0 <= dp < 5 ==>
         (Admissible(t, df, db, dp) <==> db < df + 3 && dp < db + 2)
  }

  /** The program's depth tables step by one: 6.., 3.., 1... */
  lemma DepthsValues(i: int)
    requires 0 <= i < 5
    ensures Loopable(Depths)
    ensures Depths.fovea[i] == 6 + i && Depths.blend[i] == 3 + i && Depths.peri[i] == 1 + i
  {
    if i == 0 {} else if i == 1 {} else if i == 2 {} else if i == 3 {} else {}
  }

  lemma DepthsStepped()
    ensures SteppedTables(Depths)
  {
    DepthsValues(0);
    forall df, db, dp | 0 <= df < 5 && 0 <= db < 5 && 0 <= dp < 5
      ensures Admissible(Depths, df, db, dp) <==> db < df + 3 && dp < db + 2
    {
      DepthsValues(df);
      DepthsValues(db);
      DepthsValues(dp);
    }
  }

  /** Number of peripheral depths from `dp` on admitted below (df, db). */
  function PeriCount(df: int, db: int, dp: int): int {
    var top := if db + 2 < 5 then db + 2 else 5;
    if db < df + 3 && dp < top then top - dp else 0
  }

  function BlendCount(df: int, db: int): int
    requires db <= 5
    decreases 5 - db
  {
    if db == 5 then 0 else PeriCount(df, db, 0) + BlendCount(df, db + 1)
  }

  lemma {:induction false} PeriLoopCount(t: DepthTables, df: int, db: int, dp: int)
    requires SteppedTables(t) && 0 <= df < 5 && 0 <= db < 5 && 0 <= dp <= 5
    ensures |PeriLoop(t, df, db, dp)| == PeriCount(df, db, dp)
    decreases 5 - dp
  {
    if dp < 5 {
      PeriLoopCount(t, df, db, dp + 1);
      assert Admissible(t, df, db, dp) <==> db < df + 3 && dp < db + 2;
    }
  }

  lemma {:induction false} BlendLoopCount(t: DepthTables, df: int, db: int)
    requires SteppedTables(t) && 0 <= df < 5 && 0 <= db <= 5
    ensures |BlendLoop(t, df, db)| == BlendCount(df, db)
    decreases 5 - db
  {
    if db < 5 {
      PeriLoopCount(t, df, db, 0);
      BlendLoopCount(t, df, db + 1);
    }
  }

  /** 9 + 14 + 19 + 19 + 19 admissible depth triples. */
  lemma DepthTriplesCount(t: DepthTables)
    requires SteppedTables(t)
    ensures |DepthTriples(t)| == 80
  {
    BlendLoopCount(t, 0, 0);
    BlendLoopCount(t, 1, 0);
    BlendLoopCount(t, 2, 0);
    BlendLoopCount(t, 3, 0);
    BlendLoopCount(t, 4, 0);
    assert BlendCount(0, 0) == 9 && BlendCount(1, 0) == 14;
    assert BlendCount(2, 0) == 19 && BlendCount(3, 0) == 19 && BlendCount(4, 0) == 19;
    assert DepthLoop(t, 4) == BlendLoop(t, 4, 0) + DepthLoop(t, 5);
    assert DepthLoop(t, 3) == BlendLoop(t, 3, 0) + DepthLoop(t, 4);
    assert DepthLoop(t, 2) == BlendLoop(t, 2, 0) + DepthLoop(t, 3);
    assert DepthLoop(t, 1) == BlendLoop(t, 1, 0) + DepthLoop(t, 2);
  }

  lemma {:induction false} SizeBlendLoopCount(triples: seq<Entry>, p: Entry, sf: int, sb: int)
    requires 0 <= sb <= 5
    ensures |SizeBlendLoop(triples, p, sf, sb)| == (5 - sb) * |triples|
    decreases 5 - sb
  {
    if sb < 5 {
      SizeBlendLoopCount(triples, p, sf, sb + 1);
    }
  }

  /** Number of size pairs `sf <= sb < 5` from fovea size `sf` on. */
  function PairCount(sf: int): int
    requires 0 <= sf <= 5
    decreases 5 - sf
  {
    if sf == 5 then 0 else (5 - sf) + PairCount(sf + 1)
  }

  lemma {:induction false} SizeFoveaLoopCount(triples: seq<Entry>, p: Entry, sf: int)
    requires 0 <= sf <= 5
    ensures |SizeFoveaLoop(triples, p, sf)| == PairCount(sf) * |triples|
    decreases 5 - sf
  {
    if sf < 5 {
      SizeBlendLoopCount(triples, p, sf, sf);
      SizeFoveaLoopCount(triples, p, sf + 1);
      assert (5 - sf) * |triples| + PairCount(sf + 1) * |triples| == PairCount(sf) * |triples|;
    }
  }

  /** Fifteen size pairs `sf <= sb` in front of every triple. */
  lemma SizeFoveaTotal(triples: seq<Entry>)
    ensures |SizeFoveaLoop(triples, [], 0)| == 15 * |triples|
  {
    SizeFoveaLoopCount(triples, [], 0);
    assert PairCount(0) == 15;
  }

  /** 15 size pairs times 80 depth triples: the 1200 actions of the FOCAS
      action space. */
  lemma FocasCount(t: DepthTables)
    requires SteppedTables(t)
    ensures |FocasCombination(t)| == 1200
  {
    DepthTriplesCount(t);
    SizeFoveaTotal(DepthTriples(t));
  }

  lemma {:induction false} TiersLength(f: seq<Entry>, b: int)
    requires 0 <= b <= 4
    ensures |Tiers(f, b)| == (4 - b) * |f|
    decreases 4 - b
  {
    if b < 4 {
      TiersLength(f, b + 1);
    }
  }

  lemma {:induction false} TiersBlocks(f: seq<Entry>, b0: int, b: int, j: int)
    requires 0 <= b0 <= b < 4 && 0 <= j < |f|
    ensures (b - b0) * |f| + j < |Tiers(f, b0)|
      && Tiers(f, b0)[(b - b0) * |f| + j] == [b] + f[j]
    decreases b - b0
  {
    TiersLength(f, b0);
    TiersLength(f, b0 + 1);
    if b > b0 {
      TiersBlocks(f, b0 + 1, b, j);
      assert (b - b0) * |f| + j == |f| + ((b - (b0 + 1)) * |f| + j);
    }
  }

  lemma TiersTotal(f: seq<Entry>)
    ensures |Tiers(f, 0)| == 4 * |f|
  {
    TiersLength(f, 0);
  }

  lemma OursLength(t: DepthTables)
    requires Loopable(t)
    ensures |OursCombination(t)| == 4 * |FocasCombination(t)|
  {
    OursTiers(t);
    TiersTotal(FocasCombination(t));
  }

  /** The catalogs the program builds from its own tables: 1200 FOCAS
      actions and 4800 proposed-method actions. */
  lemma ProgramCatalogSizes()
    ensures Loopable(Depths)
    ensures |FocasCombination(Depths)| == 1200 && |OursCombination(Depths)| == 4800
  {
    DepthsStepped();
    FocasCount(Depths);
    OursLength(Depths);
  }

  // ---------------------------------------------------------------------
  // Enumeration order
  // ---------------------------------------------------------------------

  /** Python's `<` on lists of integers. */
  predicate LexLess(a: Entry, b: Entry) {
    if |a| == 0 then |b| > 0
    else if |b| == 0 then false
    else a[0] < b[0] || (a[0] == b[0] && LexLess(a[1..], b[1..]))
  }

  /** Every entry is below every later one. */
  predicate StrictlyIncreasing(s: seq<Entry>) {
    forall i, j :: 0 <= i < j < |s| ==> LexLess(s[i], s[j])
  }

  /** Every entry is below its successor. */
  predicate Chained(s: seq<Entry>)
    decreases |s|
  {
    |s| <= 1 || (LexLess(s[0], s[1]) && Chained(s[1..]))
  }

  lemma {:induction false} LexLessIrreflexive(a: Entry)
    ensures !LexLess(a, a)
  {
    if |a| > 0 {
      LexLessIrreflexive(a[1..]);
    }
  }

  lemma {:induction false} LexLessTransitive(a: Entry, b: Entry, c: Entry)
    requires LexLess(a, b) && LexLess(b, c)
    ensures LexLess(a, c)
    decreases |a|
  {
    if |a| > 0 && |b| > 0 && |c| > 0 && a[0] == b[0] == c[0] {
      LexLessTransitive(a[1..], b[1..], c[1..]);
    }
  }

  /** Below the successor everywhere means below every later entry. */
  lemma {:induction false} ChainedIncreasing(s: seq<Entry>)
    requires Chained(s)
    ensures StrictlyIncreasing(s)
    decreases |s|
  {
    if |s| > 1 {
      var tail := s[1..];
      ChainedIncreasing(tail);
      forall i, j | 0 <= i < j < |s|
        ensures LexLess(s[i], s[j])
      {
        if i > 0 {
          assert s[i] == tail[i - 1] && s[j] == tail[j - 1];
        } else if j > 1 {
          assert s[1] == tail[0] && s[j] == tail[j - 1];
          LexLessTransitive(s[0], s[1], s[j]);
        }
      }
    }
  }

  lemma IncreasingDistinct(s: seq<Entry>)
    requires StrictlyIncreasing(s)
    ensures forall i, j :: 0 <= i < j < |s| ==> s[i] != s[j]
  {
    forall i, j | 0 <= i < j < |s|
      ensures s[i] != s[j]
    {
      LexLessIrreflexive(s[i]);
    }
  }

  /** Two lists that agree before position `k` and differ upwards at `k`. */
  lemma {:induction false} LexLessAt(a: Entry, b: Entry, k: nat)
    requires k < |a| && k < |b|
    requires forall i :: 0 <= i < k ==> a[i] == b[i]
    requires a[k] < b[k]
    ensures LexLess(a, b)
    decreases k
  {
    if k > 0 {
      LexLessAt(a[1..], b[1..], k - 1);
    }
  }

  lemma {:induction false} LexLessPrefix(p: Entry, a: Entry, b: Entry)
    requires LexLess(a, b)
    ensures LexLess(p + a, p + b)
    decreases |p|
  {
    if |p| > 0 {
      LexLessPrefix(p[1..], a, b);
      assert (p + a)[1..] == p[1..] + a;
      assert (p + b)[1..] == p[1..] + b;
      assert (p + a)[0] == p[0] == (p + b)[0];
    } else {
      assert p + a == a && p + b == b;
    }
  }

  /** Two chained runs joined where the last of the first is below the
      first of the second. */
  lemma {:induction false} ChainedConcat(a: seq<Entry>, b: seq<Entry>)
    requires Chained(a) && Chained(b)
    requires |a| > 0 && |b| > 0 ==> LexLess(a[|a| - 1], b[0])
    ensures Chained(a + b)
    decreases |a|
  {
    if |a| == 0 {
      assert a + b == b;
    } else if |a| == 1 {
      assert (a + b)[1..] == b;
    } else {
      ChainedConcat(a[1..], b);
      assert (a + b)[1..] == a[1..] + b;
    }
  }

  lemma {:induction false} PrependChained(p: Entry, s: seq<Entry>)
    requires Chained(s)
    ensures Chained(Prepend(p, s))
    decreases |s|
  {
    if |s| > 1 {
      PrependChained(p, s[1..]);
      assert Prepend(p, s)[1..] == Prepend(p, s[1..]);
      LexLessPrefix(p, s[0], s[1]);
    }
  }

  lemma {:induction false} PeriLoopChained(t: DepthTables, df: int, db: int, dp: int)
    requires Loopable(t) && 0 <= df < 5 && 0 <= db < 5 && 0 <= dp <= 5
    ensures Chained(PeriLoop(t, df, db, dp))
    decreases 5 - dp
  {
    if dp < 5 {
      var rest := PeriLoop(t, df, db, dp + 1);
      PeriLoopChained(t, df, db, dp + 1);
      var head: seq<Entry> := if Admissible(t, df, db, dp) then [[df, db, dp]] else [];
      if |head| > 0 && |rest| > 0 {
        PeriLoopMembers(t, df, db, dp + 1, rest[0]);
        LexLessAt(head[0], rest[0], 2);
      }
      ChainedConcat(head, rest);
    }
  }

  /** A triple with blend depth `db` is below every later one with the
      same fovea depth. */
  lemma BlendLoopBoundary(t: DepthTables, df: int, db: int, x: Entry, y: Entry)
    requires Loopable(t) && 0 <= df < 5 && 0 <= db < 5
    requires x in PeriLoop(t, df, db, 0) && y in BlendLoop(t, df, db + 1)
    ensures LexLess(x, y)
  {
    PeriLoopMembers(t, df, db, 0, x);
    BlendLoopMembers(t, df, db + 1, y);
    assert |x| == 3 && x[0] == df && x[1] == db;
    assert |y| == 3 && y[0] == df && y[1] > db;
    LexLessAt(x, y, 1);
  }

  lemma {:induction false} BlendLoopChained(t: DepthTables, df: int, db: int)
    requires Loopable(t) && 0 <= df < 5 && 0 <= db <= 5
    ensures Chained(BlendLoop(t, df, db))
    decreases 5 - db
  {
    if db < 5 {
      var head, rest := PeriLoop(t, df, db, 0), BlendLoop(t, df, db + 1);
      BlendLoopChained(t, df, db + 1);
      PeriLoopChained(t, df, db, 0);
      if |head| > 0 && |rest| > 0 {
        BlendLoopBoundary(t, df, db, head[|head| - 1], rest[0]);
      }
      ChainedConcat(head, rest);
      assert BlendLoop(t, df, db) == head + rest;
    }
  }

  /** A triple with fovea depth `df` is below every triple with a larger
      fovea depth. */
  lemma DepthLoopBoundary(t: DepthTables, df: int, x: Entry, y: Entry)
    requires Loopable(t) && 0 <= df < 5
    requires x in BlendLoop(t, df, 0) && y in DepthLoop(t, df + 1)
    ensures LexLess(x, y)
  {
    BlendLoopMembers(t, df, 0, x);
    DepthLoopMembers(t, df + 1, y);
    assert |x| == 3 && x[0] == df;
    assert |y| == 3 && y[0] > df;
    LexLessAt(x, y, 0);
  }

  lemma {:induction false} DepthLoopChained(t: DepthTables, df: int)
    requires Loopable(t) && 0 <= df <= 5
    ensures Chained(DepthLoop(t, df))
    decreases 5 - df
  {
    if df < 5 {
      var head, rest := BlendLoop(t, df, 0), DepthLoop(t, df + 1);
      DepthLoopChained(t, df + 1);
      BlendLoopChained(t, df, 0);
      if |head| > 0 && |rest| > 0 {
        DepthLoopBoundary(t, df, head[|head| - 1], rest[0]);
      }
      ChainedConcat(head, rest);
      assert DepthLoop(t, df) == head + rest;
    }
  }

  /** The last entry with blend size `sb` is below the first with a larger
      blend size. */
  lemma SizeBlendLoopBoundary(triples: seq<Entry>, sf: int, sb: int)
    requires 0 <= sb < 5
    ensures var head, rest := Prepend([sf, sb], triples), SizeBlendLoop(triples, [], sf, sb + 1);
      |head| > 0 && |rest| > 0 ==> LexLess(head[|head| - 1], rest[0])
  {
    var q: Entry := [sf, sb];
    var head, rest := Prepend(q, triples), SizeBlendLoop(triples, [], sf, sb + 1);
    if |head| > 0 && |rest| > 0 {
      var x := head[|head| - 1];
      PrependMembers(q, triples, x);
      assert x[0] == x[..2][0] && x[1] == x[..2][1];
      SizeBlendLoopMembers(triples, sf, sb + 1, rest[0]);
      LexLessAt(x, rest[0], 1);
    }
  }

  lemma {:induction false} SizeBlendLoopChained(triples: seq<Entry>, sf: int, sb: int)
    requires 0 <= sb <= 5 && Chained(triples)
    ensures Chained(SizeBlendLoop(triples, [], sf, sb))
    decreases 5 - sb
  {
    if sb < 5 {
      var q: Entry := [sf, sb];
      assert [] + [sf, sb] == q;
      SizeBlendLoopChained(triples, sf, sb + 1);
      PrependChained(q, triples);
      SizeBlendLoopBoundary(triples, sf, sb);
      ChainedConcat(Prepend(q, triples), SizeBlendLoop(triples, [], sf, sb + 1));
    }
  }

  /** An entry with fovea size `sf` is below every entry with a larger one. */
  lemma SizeFoveaLoopBoundary(triples: seq<Entry>, sf: int, x: Entry, y: Entry)
    requires 0 <= sf < 5
    requires x in SizeBlendLoop(triples, [], sf, sf) && y in SizeFoveaLoop(triples, [], sf + 1)
    ensures LexLess(x, y)
  {
    SizeBlendLoopMembers(triples, sf, sf, x);
    SizeFoveaLoopMembers(triples, sf + 1, y);
    assert |x| >= 2 && x[0] == sf;
    assert |y| >= 2 && y[0] > sf;
    LexLessAt(x, y, 0);
  }

  lemma {:induction false} SizeFoveaLoopChained(triples: seq<Entry>, sf: int)
    requires 0 <= sf <= 5 && Chained(triples)
    ensures Chained(SizeFoveaLoop(triples, [], sf))
    decreases 5 - sf
  {
    if sf < 5 {
      var head, rest := SizeBlendLoop(triples, [], sf, sf), SizeFoveaLoop(triples, [], sf + 1);
      SizeBlendLoopChained(triples, sf, sf);
      SizeFoveaLoopChained(triples, sf + 1);
      if |head| > 0 && |rest| > 0 {
        SizeFoveaLoopBoundary(triples, sf, head[|head| - 1], rest[0]);
      }
      ChainedConcat(head, rest);
      assert SizeFoveaLoop(triples, [], sf) == head + rest;
    }
  }

  /** The FOCAS catalog is in strictly increasing list order, so no action
      appears twice. */
  lemma FocasIncreasing(t: DepthTables)
    requires Loopable(t)
    ensures StrictlyIncreasing(FocasCombination(t))
    ensures forall i, j :: 0 <= i < j < |FocasCombination(t)| ==> FocasCombination(t)[i] != FocasCombination(t)[j]
  {
    DepthLoopChained(t, 0);
    SizeFoveaLoopChained(DepthTriples(t), 0);
    ChainedIncreasing(FocasCombination(t));
    IncreasingDistinct(FocasCombination(t));
  }

  lemma {:induction false} TiersChained(f: seq<Entry>, b: int)
    requires 0 <= b <= 4 && Chained(f)
    ensures Chained(Tiers(f, b))
    decreases 4 - b
  {
    if b < 4 {
      var head := Prepend([b], f);
      var rest := Tiers(f, b + 1);
      TiersChained(f, b + 1);
      PrependChained([b], f);
      if |head| > 0 && |rest| > 0 {
        var x := head[|head| - 1];
        PrependMembers([b], f, x);
        assert x[0] == x[..1][0];
        TiersMembers(f, b + 1, rest[0]);
        LexLessAt(x, rest[0], 0);
      }
      ChainedConcat(head, rest);
    }
  }

  /** The proposed-method catalog is strictly increasing as well, hence
      duplicate-free. */
  lemma OursIncreasing(t: DepthTables)
    requires Loopable(t)
    ensures StrictlyIncreasing(OursCombination(t))
    ensures forall i, j :: 0 <= i < j < |OursCombination(t)| ==> OursCombination(t)[i] != OursCombination(t)[j]
  {
    DepthLoopChained(t, 0);
    SizeFoveaLoopChained(DepthTriples(t), 0);
    TiersChained(FocasCombination(t), 0);
    OursTiers(t);
    ChainedIncreasing(OursCombination(t));
    IncreasingDistinct(OursCombination(t));
  }

  // ---------------------------------------------------------------------
  // Decoding an action id
  // ---------------------------------------------------------------------

  /** The nested list `assign_action` returns, as a record; `bitrate` is
      present only for the proposed method. */
  datatype ActionIndex = ActionIndex(
    bitrate: Option<int>,
    sizeFovea: int, sizeBlend: int,
    depthFovea: int, depthBlend: int, depthPeri: int)

  /** How `assign_action` reads one catalog entry: modes 0 and 1 read
      `[a[0], a[1]], [a[2], a[3], a[4]]`, any other mode reads
      `a[0], [a[1], a[2]], [a[3], a[4], a[5]]`; a field past the end of the
      entry is an `IndexError`. */
  function DecodeEntry(a: Entry, mode: int): (r: Result<ActionIndex>)
    ensures r.Ok? <==> |a| >= (if mode == 0 || mode == 1 then 5 else 6)
    ensures r.Ok? ==> (r.value.bitrate.None? <==> mode == 0 || mode == 1)
  {
    if mode == 0 || mode == 1 then
      if |a| < 5 then Err(IndexError)
      else Ok(ActionIndex(None, a[0], a[1], a[2], a[3], a[4]))
    else
      if |a| < 6 then Err(IndexError)
      else Ok(ActionIndex(Some(a[0]), a[1], a[2], a[3], a[4], a[5]))
  }

  /** The catalog entry an index is read from: the inverse of `DecodeEntry`. */
  function EncodeEntry(x: ActionIndex): (e: Entry)
    ensures |e| == if x.bitrate.Some? then 6 else 5
  {
    (if x.bitrate.Some? then [x.bitrate.value] else [])
      + [x.sizeFovea, x.sizeBlend, x.depthFovea, x.depthBlend, x.depthPeri]
  }

  /** Encoding then decoding in the matching mode gives the index back. */
  lemma DecodeEncode(x: ActionIndex, mode: int)
    requires x.bitrate.None? <==> mode == 0 || mode == 1
    ensures DecodeEntry(EncodeEntry(x), mode) == Ok(x)
  {
  }

  /** Decoding then encoding gives the entry back when it has exactly the
      fields the mode reads. */
  lemma EncodeDecode(a: Entry, mode: int)
    requires |a| == (if mode == 0 || mode == 1 then 5 else 6)
    ensures DecodeEntry(a, mode).Ok? && EncodeEntry(DecodeEntry(a, mode).value) == a
  {
  }

  /** `assign_action(mode, action)` over the catalog `comb`. Indexing
      follows Python, so a negative id counts from the end and an id outside
      the catalog is an `IndexError`. */
  function AssignAction(comb: seq<Entry>, mode: int, action: int): (r: Result<ActionIndex>)
    ensures 0 <= action < |comb| ==> r == DecodeEntry(comb[action], mode)
    ensures -|comb| <= action < 0 ==> r == DecodeEntry(comb[|comb| + action], mode)
    ensures (action >= |comb| || action < -|comb|) ==> r == Err(IndexError)
  {
    match Index(comb, action)
    case None => Err(IndexError)
    case Some(a) => DecodeEntry(a, mode)
  }

  predicate ValidIndex(t: DepthTables, x: ActionIndex)
    requires Loopable(t)
  {
    && 0 <= x.sizeFovea <= x.sizeBlend < 5
    && 0 <= x.depthFovea < 5 && 0 <= x.depthBlend < 5 && 0 <= x.depthPeri < 5
    && Admissible(t, x.depthFovea, x.depthBlend, x.depthPeri)
    && (x.bitrate.Some? ==> 0 <= x.bitrate.value < 4)
  }

  /** Decoding the FOCAS catalog (modes 0 and 1): every id in range gives
      a valid index with no bitrate, and an id past the end is an
      `IndexError`. */
  lemma FocasDecode(t: DepthTables, mode: int, action: int)
    requires Loopable(t) && (mode == 0 || mode == 1)
    ensures 0 <= action < |FocasCombination(t)| ==>
      var r := AssignAction(FocasCombination(t), mode, action);
      r.Ok? && r.value.bitrate.None? && ValidIndex(t, r.value)
    ensures action >= |FocasCombination(t)| ==> AssignAction(FocasCombination(t), mode, action) == Err(IndexError)
  {
    if 0 <= action < |FocasCombination(t)| {
      var e := FocasCombination(t)[action];
      FocasMembers(t, e);
      EntryValid(t, e, mode);
    }
  }

  /** A well-formed FOCAS entry decodes to a valid index. */
  lemma EntryValid(t: DepthTables, e: Entry, mode: int)
    requires Loopable(t) && FocasEntry(t, e) && (mode == 0 || mode == 1)
    ensures DecodeEntry(e, mode).Ok? && ValidIndex(t, DecodeEntry(e, mode).value)
  {
    assert e[2..][0] == e[2] && e[2..][1] == e[3] && e[2..][2] == e[4];
  }

  /** A well-formed proposed-method entry decodes to a valid index. */
  lemma OursEntryValid(t: DepthTables, e: Entry)
    requires Loopable(t) && OursEntry(t, e)
    ensures DecodeEntry(e, 2).Ok? && ValidIndex(t, DecodeEntry(e, 2).value)
  {
    assert e[1..][2..] == e[3..];
  }

  /** A position of an element known to be in `s`. */
  lemma IndexOf(s: seq<Entry>, e: Entry) returns (i: int)
    requires e in s
    ensures 0 <= i < |s| && s[i] == e
  {
    i :| 0 <= i < |s| && s[i] == e;
  }

  /** The entry of a valid index without a bitrate is a FOCAS entry. */
  lemma EncodedFocasEntry(t: DepthTables, x: ActionIndex)
    requires Loopable(t) && ValidIndex(t, x) && x.bitrate.None?
    ensures FocasEntry(t, EncodeEntry(x))
  {
    var e := EncodeEntry(x);
    assert e[2..] == [x.depthFovea, x.depthBlend, x.depthPeri];
  }

  /** Every valid index without a bitrate is the decoding of some FOCAS id. */
  lemma FocasDecodeComplete(t: DepthTables, mode: int, x: ActionIndex) returns (action: int)
    requires Loopable(t) && (mode == 0 || mode == 1)
    requires ValidIndex(t, x) && x.bitrate.None?
    ensures 0 <= action < |FocasCombination(t)| && AssignAction(FocasCombination(t), mode, action) == Ok(x)
  {
    EncodedFocasEntry(t, x);
    FocasMembers(t, EncodeEntry(x));
    action := IndexOf(FocasCombination(t), EncodeEntry(x));
    DecodeEncode(x, mode);
  }

  /** Decoding the proposed catalog in mode 2: ids in range give a valid
      index with a bitrate tier. */
  lemma OursDecode(t: DepthTables, action: int)
    requires Loopable(t) && 0 <= action < |OursCombination(t)|
    ensures var r := AssignAction(OursCombination(t), 2, action);
      r.Ok? && r.value.bitrate.Some? && ValidIndex(t, r.value)
  {
    var e := OursCombination(t)[action];
    OursMembers(t, e);
    OursEntryValid(t, e);
  }

  /** Prefixing the tier `b` to the entry of id `j` of `f` gives the entry
      of id `b * |f| + j` of the tiered catalog, which decodes to `x` with
      that tier. */
  lemma TiersDecode(f: seq<Entry>, x: ActionIndex, j: int) returns (action: int)
    requires 0 <= j < |f| && DecodeEntry(f[j], 0) == Ok(x.(bitrate := None))
    requires x.bitrate.Some? && 0 <= x.bitrate.value < 4
    ensures 0 <= action < |Tiers(f, 0)| && AssignAction(Tiers(f, 0), 2, action) == Ok(x)
  {
    var b := x.bitrate.value;
    TiersBlocks(f, 0, b, j);
    action := b * |f| + j;
  }

  /** Every valid index with a tier is the decoding of some proposed id:
      the id of its FOCAS part, shifted into the block of its tier. */
  lemma OursDecodeComplete(t: DepthTables, x: ActionIndex) returns (action: int)
    requires Loopable(t) && ValidIndex(t, x) && x.bitrate.Some?
    ensures 0 <= action < |OursCombination(t)| && AssignAction(OursCombination(t), 2, action) == Ok(x)
  {
    var j := FocasDecodeComplete(t, 0, x.(bitrate := None));
    OursTiers(t);
    action := TiersDecode(FocasCombination(t), x, j);
  }

  /** A FOCAS entry has no sixth field, so decoding it in mode 2 fails. */
  lemma FocasCatalogInOursMode(t: DepthTables, action: int)
    requires Loopable(t) && 0 <= action < |FocasCombination(t)|
    ensures AssignAction(FocasCombination(t), 2, action) == Err(IndexError)
  {
    FocasMembers(t, FocasCombination(t)[action]);
  }
}
