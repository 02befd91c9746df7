/** The two numeric helpers of the training loop: the mean of the trailing
    window of a history (`ave_cal`) and the hours/minutes/seconds split of
    an elapsed time (`debug_time`). */
module OtherCal {
  import opened Py

  // ---------------------------------------------------------------------
  // Sums
  // ---------------------------------------------------------------------

  function Sum(s: seq<real>): real {
    if |s| == 0 then 0.0 else Sum(s[..|s| - 1]) + s[|s| - 1]
  }

  lemma {:induction false} SumConcat(a: seq<real>, b: seq<real>)
    ensures Sum(a + b) == Sum(a) + Sum(b)
    decreases |b|
  {
    if |b| > 0 {
      assert (a + b)[..|a + b| - 1] == a + b[..|b| - 1];
      SumConcat(a, b[..|b| - 1]);
    } else {
      assert a + b == a;
    }
  }

  /** A sequence of `n` copies of `c` sums to `n c`. */
  lemma {:induction false} SumConstant(s: seq<real>, c: real)
    requires forall k :: 0 <= k < |s| ==> s[k] == c
    ensures Sum(s) == |s| as real * c
  {
    if |s| > 0 {
      SumConstant(s[..|s| - 1], c);
    }
  }

  // ---------------------------------------------------------------------
  // `ave_cal`
  // ---------------------------------------------------------------------

  /** `history[i]` for a position Python accepts. */
  function At(history: seq<real>, i: int): real
    requires -|history| <= i < |history|
  {
    if i < 0 then history[|history| + i] else history[i]
  }

  /** The values `history[lo], ..., history[hi - 1]` read one by one. */
  function Gather(history: seq<real>, lo: int, hi: int): (r: seq<real>)
    requires -|history| <= lo && hi <= |history|
    ensures |r| == if hi <= lo then 0 else hi - lo
    decreases hi - lo
  {
    if hi <= lo then [] else Gather(history, lo, hi - 1) + [At(history, hi - 1)]
  }

  /** The elements `range(len - n, len)` reaches: the trailing `n` when the
      history is long enough; for `len < n <= 2 len` the negative positions
      wrap, giving the trailing `n - len` elements and then the whole
      history. */
  function Window(history: seq<real>, n: int): (w: seq<real>)
    requires n <= 2 * |history|
    ensures |w| == if n <= 0 then 0 else n
  {
    if n <= 0 then []
    else if n <= |history| then history[|history| - n..]
    else history[2 * |history| - n..] + history
  }

  /** What `ave_cal` returns: a window reaching past the front of the
      history twice is an `IndexError`, an empty one divides zero by zero,
      and otherwise the window's sum over `n`. A negative `n` reads nothing
      and returns zero. */
  function TrailingMean(history: seq<real>, n: int): (r: Result<real>)
    ensures r.Err? <==> n == 0 || n > 2 * |history|
    ensures n < 0 ==> r == Ok(0.0)
  {
    if n > 2 * |history| then Err(IndexError)
    else if n == 0 then Err(ZeroDivisionError)
    else Ok(Sum(Window(history, n)) / n as real)
  }

  lemma {:induction false} GatherSplit(history: seq<real>, lo: int, mid: int, hi: int)
    requires -|history| <= lo <= mid <= hi <= |history|
    ensures Gather(history, lo, hi) == Gather(history, lo, mid) + Gather(history, mid, hi)
    decreases hi - mid
  {
    if hi > mid {
      GatherSplit(history, lo, mid, hi - 1);
    }
  }

  /** Reading positions `lo..hi` one at a time gives the slice they name. */
  lemma {:induction false} GatherSlice(history: seq<real>, lo: int, hi: int, offset: int)
    requires -|history| <= lo <= hi <= |history|
    requires offset == 0 || offset == |history|
    requires (offset == 0 && 0 <= lo) || (offset == |history| && hi <= 0)
    ensures Gather(history, lo, hi) == history[lo + offset..hi + offset]
    decreases hi - lo
  {
    if hi > lo {
      GatherSlice(history, lo, hi - 1, offset);
      assert history[lo + offset..hi + offset] == history[lo + offset..hi - 1 + offset] + [history[hi - 1 + offset]];
    }
  }

  /** The positions `len - n .. len - 1` are exactly the window. */
  lemma GatherWindow(history: seq<real>, n: int)
    requires 0 < n <= 2 * |history|
    ensures Gather(history, |history| - n, |history|) == Window(history, n)
  {
    var len := |history|;
    if n <= len {
      GatherSlice(history, len - n, len, 0);
      assert history[len - n + 0..len + 0] == history[len - n..];
    } else {
      GatherWrapped(history, n);
    }
  }

  lemma GatherWrapped(history: seq<real>, n: int)
    requires |history| < n <= 2 * |history|
    ensures Gather(history, |history| - n, |history|) == history[2 * |history| - n..] + history
  {
    var len := |history|;
    GatherSplit(history, len - n, 0, len);
    GatherSlice(history, len - n, 0, len);
    assert history[len - n + len..0 + len] == history[2 * len - n..];
    GatherSlice(history, 0, len, 0);
    assert history[0 + 0..len + 0] == history;
  }

  /** `ave_cal`: the loop of the source, reading `history[i]` for `i` in
      `range(len - n, len)`, then dividing by `n`. */
  method AveCal(history: seq<real>, n: int) returns (r: Result<real>)
    ensures r == TrailingMean(history, n)
  {
    var sum := 0.0;
    var length := |history|;
    var i := length - n;
    while i < length
      invariant length - n <= i
      invariant i > length - n ==> -length <= length - n && i <= length
      invariant -length <= length - n && i <= length ==> sum == Sum(Gather(history, length - n, i))
      invariant i == length - n ==> sum == 0.0
      decreases length - i
    {
      match Index(history, i)
      case None =>
        return Err(IndexError);
      case Some(v) =>
        if i > length - n {
          SumConcat(Gather(history, length - n, i), [v]);
          assert Gather(history, length - n, i) + [v] == Gather(history, length - n, i + 1);
        } else {
          assert Gather(history, length - n, i + 1) == [v];
          assert [v][..0] == [];
        }
        sum := sum + v;
      i := i + 1;
    }
    if n == 0 {
      return Err(ZeroDivisionError);
    }
    if n > 0 {
      GatherWindow(history, n);
    }
    return Ok(sum / n as real);
  }

  /** Elements before the trailing window have no effect. */
  lemma TrailingMeanIgnoresPrefix(prefix: seq<real>, history: seq<real>, n: int)
    requires 0 < n <= |history|
    ensures TrailingMean(prefix + history, n) == TrailingMean(history, n)
  {
    assert (prefix + history)[|prefix + history| - n..] == history[|history| - n..];
  }

  /** A trailing window that holds one value throughout averages to it. */
  lemma TrailingMeanOfConstant(history: seq<real>, n: int, c: real)
    requires 0 < n <= |history|
    requires forall k :: |history| - n <= k < |history| ==> history[k] == c
    ensures TrailingMean(history, n) == Ok(c)
  {
    var w := history[|history| - n..];
    SumConstant(w, c);
    assert Sum(w) / n as real == c;
  }

  /** With a window longer than the history the front elements are counted
      twice: the mean of `[a, b]` over three steps is `(b + a + b) / 3`. */
  lemma TrailingMeanWrapsAround(a: real, b: real)
    ensures TrailingMean([a, b], 3) == Ok((b + a + b) / 3.0)
  {
    assert Window([a, b], 3) == [b, a, b];
    assert [b][..0] == [];
    assert Sum([b]) == b;
    assert [b, a][..1] == [b];
    assert Sum([b, a]) == b + a;
    assert [b, a, b][..2] == [b, a];
    assert Sum([b, a, b]) == b + a + b;
  }

  // ---------------------------------------------------------------------
  // `debug_time`
  // ---------------------------------------------------------------------

  datatype Clock = Clock(hours: int, minutes: int, secs: real)

  /** Python's `x // m` on floats, for a positive divisor. */
  function FloorDiv(x: real, m: real): int
    requires m > 0.0
  {
    (x / m).Floor
  }

  /** Python's `x % m` on floats, for a positive divisor: the remainder
      takes the divisor's sign. */
  function FloorMod(x: real, m: real): real
    requires m > 0.0
  {
    x - FloorDiv(x, m) as real * m
  }

  /** An integer shift passes through the floor. */
  lemma FloorShift(x: real, k: int)
    ensures (x + k as real).Floor == x.Floor + k
  {
  }

  /** The hours, the minutes left over, and the seconds left over. */
  function DebugTime(seconds: real): (c: Clock)
    ensures 0 <= c.minutes < 60 && 0.0 <= c.secs < 60.0
    ensures c.hours as real * 3600.0 + c.minutes as real * 60.0 + c.secs == seconds
  {
    var hours := FloorDiv(seconds, 3600.0);
    var rest := FloorMod(seconds, 3600.0);
    var minutes := FloorDiv(rest, 60.0);
    var secs := FloorMod(seconds, 60.0);
    ClockSplit(seconds, hours, rest, minutes);
    Clock(hours, minutes, secs)
  }

  lemma ClockSplit(seconds: real, hours: int, rest: real, minutes: int)
    requires hours == FloorDiv(seconds, 3600.0) && rest == FloorMod(seconds, 3600.0)
    requires minutes == FloorDiv(rest, 60.0)
    ensures 0 <= minutes < 60
    ensures hours as real * 3600.0 + minutes as real * 60.0 + FloorMod(seconds, 60.0) == seconds
  {
    assert seconds / 60.0 == rest / 60.0 + (60 * hours) as real;
    FloorShift(rest / 60.0, 60 * hours);
    assert FloorDiv(seconds, 60.0) == minutes + 60 * hours;
  }
}
