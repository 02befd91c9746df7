/** Python idioms the modelled scripts rely on: negative indexing, clamped
    slicing, and the few `str` operations the parsers call (`strip`,
    `split`, `lower`, `startswith`, `endswith`, `int`). Strings are
    sequences of characters; only the ASCII behaviour of these methods is
    modelled. */
module Py {

  datatype Option<+T> = None | Some(value: T)

  /** The exception classes the modelled code raises. */
  datatype Error = IndexError | ValueError | ZeroDivisionError

  datatype Result<+T> = Ok(value: T) | Err(error: Error)

  // ---------------------------------------------------------------------
  // Indexing and slicing
  // ---------------------------------------------------------------------

  /** `s[i]`: negative positions count from the end; anything else outside
      the sequence is an `IndexError` (None). */
  function Index<T>(s: seq<T>, i: int): (r: Option<T>)
    ensures r.Some? <==> -|s| <= i < |s|
    ensures r.Some? ==> r.value == s[if i < 0 then |s| + i else i]
  {
    if 0 <= i < |s| then Some(s[i])
    else if -|s| <= i < 0 then Some(s[|s| + i])
    else None
  }

  /** How a slice bound is resolved against a sequence of length n. */
  function SliceBound(i: int, n: nat): (b: nat)
    ensures b <= n
    ensures 0 <= i <= n ==> b == i
  {
    if i < 0 then (if i + n < 0 then 0 else i + n)
    else if i > n then n
    else i
  }

  /** `s[a:b]`: both bounds are resolved, and an inverted range is empty. */
  function Slice<T>(s: seq<T>, a: int, b: int): (r: seq<T>)
    ensures |r| <= |s| && SliceBound(a, |s|) + |r| <= |s|
    ensures 0 <= a <= b <= |s| ==> r == s[a..b]
    ensures forall k :: 0 <= k < |r| ==> r[k] == s[SliceBound(a, |s|) + k]
  {
    var lo := SliceBound(a, |s|);
    var hi := SliceBound(b, |s|);
    if lo < hi then s[lo..hi] else []
  }

  // ---------------------------------------------------------------------
  // Numbers
  // ---------------------------------------------------------------------

  /** `int(x)` on a float: the fractional part is dropped, towards zero. */
  function Trunc(x: real): (r: int)
    ensures x >= 0.0 ==> r as real <= x < r as real + 1.0
    ensures x < 0.0 ==> r as real - 1.0 < x <= r as real
  {
    if x >= 0.0 then x.Floor else -((-x).Floor)
  }

  function Max(a: real, b: real): real {
    if a >= b then a else b
  }

  function Min(a: real, b: real): real {
    if a <= b then a else b
  }

  function Abs(a: real): (r: real)
    ensures r >= 0.0 && (r == a || r == -a)
  {
    if a < 0.0 then -a else a
  }

  // ---------------------------------------------------------------------
  // Characters and strings
  // ---------------------------------------------------------------------

  /** `str.isspace` restricted to the ASCII and Latin-1 whitespace. */
  predicate IsSpace(c: char) {
    c == ' ' || c == '\t' || c == '\n' || c == '\r'
    || c == '\U{000B}' || c == '\U{000C}'
    || ('\U{001C}' <= c <= '\U{001F}') || c == '\U{0085}' || c == '\U{00A0}'
  }

  predicate IsDigit(c: char) {
    '0' <= c <= '9'
  }

  /** `str.lower` on ASCII letters; every other character is kept. */
  function Lower(s: string): (r: string)
    ensures |r| == |s|
    ensures forall k :: 0 <= k < |s| && !('A' <= s[k] <= 'Z') ==> r[k] == s[k]
  {
    if |s| == 0 then ""
    else [if 'A' <= s[0] <= 'Z' then (s[0] as int + 32) as char else s[0]] + Lower(s[1..])
  }

  predicate StartsWith(s: string, prefix: string) {
    |prefix| <= |s| && s[..|prefix|] == prefix
  }

  predicate EndsWith(s: string, suffix: string) {
    |suffix| <= |s| && s[|s| - |suffix|..] == suffix
  }

  /** Leading whitespace removed (`str.lstrip()`). */
  function LStrip(s: string): (r: string)
    ensures |r| <= |s| && r == s[|s| - |r|..]
    ensures |r| > 0 ==> !IsSpace(r[0])
  {
    if |s| > 0 && IsSpace(s[0]) then LStrip(s[1..]) else s
  }

  /** Trailing whitespace removed (`str.rstrip()`). */
  function RStrip(s: string): (r: string)
    ensures |r| <= |s| && r == s[..|r|]
    ensures |r| > 0 ==> !IsSpace(r[|r| - 1])
  {
    if |s| > 0 && IsSpace(s[|s| - 1]) then RStrip(s[..|s| - 1]) else s
  }

  /** `str.strip()`. */
  function Strip(s: string): string {
    RStrip(LStrip(s))
  }

  /** Every occurrence of `c` deleted (`str.replace(c, '')`). */
  function RemoveChar(s: string, c: char): (r: string)
    ensures c !in r
    ensures forall d :: d != c ==> (d in r <==> d in s)
  {
    if |s| == 0 then ""
    else (if s[0] == c then "" else [s[0]]) + RemoveChar(s[1..], c)
  }

  /** Length of the run of non-whitespace characters at the front of `s`. */
  function TokenLength(s: string): (n: nat)
    ensures n <= |s|
    ensures |s| > 0 && !IsSpace(s[0]) ==> n >= 1
    ensures forall k :: 0 <= k < n ==> !IsSpace(s[k])
    ensures n < |s| ==> IsSpace(s[n])
  {
    if |s| == 0 || IsSpace(s[0]) then 0 else 1 + TokenLength(s[1..])
  }

  /** `str.split()` with no separator: the maximal runs of non-whitespace. */
  function Split(s: string): (tokens: seq<string>)
    ensures forall t :: t in tokens ==> |t| > 0 && forall k :: 0 <= k < |t| ==> !IsSpace(t[k])
    decreases |s|
  {
    if |s| == 0 then []
    else if IsSpace(s[0]) then Split(s[1..])
    else
      var n := TokenLength(s);
      [s[..n]] + Split(s[n..])
  }

  // ---------------------------------------------------------------------
  // Integers as text
  // ---------------------------------------------------------------------

  predicate AllDigits(s: string) {
    forall k :: 0 <= k < |s| ==> IsDigit(s[k])
  }

  function DigitsValue(s: string): (v: nat)
    requires AllDigits(s)
  {
    if |s| == 0 then 0
    else DigitsValue(s[..|s| - 1]) * 10 + (s[|s| - 1] as int - '0' as int)
  }

  /** `int(t)` for a whitespace-free token: an optional sign followed by
      one or more ASCII digits; anything else is a `ValueError` (None). */
  function ParseInt(t: string): (r: Option<int>)
    ensures r.Some? ==> |t| > 0
  {
    if |t| > 0 && (t[0] == '-' || t[0] == '+') then
      var body := t[1..];
      if |body| > 0 && AllDigits(body) then
        Some(if t[0] == '-' then -(DigitsValue(body) as int) else DigitsValue(body))
      else None
    else if |t| > 0 && AllDigits(t) then Some(DigitsValue(t))
    else None
  }

  /** Decimal rendering of a natural number, as `str(n)` / f-strings print it. */
  function NatToString(n: nat): (s: string)
    ensures |s| > 0 && AllDigits(s)
    ensures n > 0 ==> s[0] != '0'
    decreases n
  {
    if n < 10 then [('0' as int + n) as char]
    else NatToString(n / 10) + [('0' as int + n % 10) as char]
  }

  function IntToString(i: int): (s: string)
    ensures IsWord(s)
    ensures forall k :: 0 <= k < |s| ==> s[k] == '-' || IsDigit(s[k])
  {
    if i < 0 then "-" + NatToString(-i) else NatToString(i)
  }

  /** Reading back a rendered natural gives the number. */
  lemma {:induction false} DigitsValueOfNatToString(n: nat)
    ensures DigitsValue(NatToString(n)) == n
    decreases n
  {
    var s := NatToString(n);
    if n >= 10 {
      DigitsValueOfNatToString(n / 10);
      assert s[..|s| - 1] == NatToString(n / 10);
    }
  }

  /** `int(str(i)) == i`: the decimal rendering and the parser are inverse. */
  lemma ParseIntOfIntToString(i: int)
    ensures ParseInt(IntToString(i)) == Some(i)
  {
    if i < 0 {
      var s := IntToString(i);
      assert s[1..] == NatToString(-i);
      DigitsValueOfNatToString(-i);
    } else {
      DigitsValueOfNatToString(i);
    }
  }

  /** `list(map(float, arg))`, with Python's `float()` as the parameter
      `parseFloat` (None where it raises): every token converted, or a
      `ValueError` at the first one `float()` rejects. */
  function ParseFloats(arg: seq<string>, parseFloat: string -> Option<real>): (r: Option<seq<real>>)
    ensures r.Some? <==> forall k :: 0 <= k < |arg| ==> parseFloat(arg[k]).Some?
    ensures r.Some? ==> |r.value| == |arg|
    ensures r.Some? ==> forall k :: 0 <= k < |arg| ==> r.value[k] == parseFloat(arg[k]).value
  {
    if |arg| == 0 then Some([])
    else
      var head := parseFloat(arg[0]);
      var tail := ParseFloats(arg[1..], parseFloat);
      if head.None? then None
      else if tail.None? then None
      else Some([head.value] + tail.value)
  }

  // ---------------------------------------------------------------------
  // Words
  // ---------------------------------------------------------------------

  /** A token `split()` can return: non-empty, without whitespace. */
  predicate IsWord(t: string) {
    |t| > 0 && forall k :: 0 <= k < |t| ==> !IsSpace(t[k])
  }

  /** `" ".join(ts)`. */
  function JoinWords(ts: seq<string>): string {
    if |ts| == 0 then ""
    else if |ts| == 1 then ts[0]
    else ts[0] + " " + JoinWords(ts[1..])
  }

  lemma {:induction false} TokenLengthOfWord(t: string, rest: string)
    requires IsWord(t)
    requires |rest| == 0 || IsSpace(rest[0])
    ensures TokenLength(t + rest) == |t|
    decreases |t|
  {
    var s := t + rest;
    if |t| > 1 {
      assert s[1..] == t[1..] + rest;
      TokenLengthOfWord(t[1..], rest);
    } else {
      assert s[1..] == rest;
    }
  }

  /** Splitting words joined by single spaces gives the words back. */
  lemma {:induction false} SplitJoinWords(ts: seq<string>)
    requires forall k :: 0 <= k < |ts| ==> IsWord(ts[k])
    ensures Split(JoinWords(ts)) == ts
    decreases |ts|
  {
    if |ts| == 1 {
      TokenLengthOfWord(ts[0], "");
      assert ts[0] + "" == ts[0];
      assert ts[0][..|ts[0]|] == ts[0];
    } else if |ts| > 1 {
      var t := ts[0];
      var rest := " " + JoinWords(ts[1..]);
      var s := JoinWords(ts);
      assert s == t + rest;
      TokenLengthOfWord(t, rest);
      assert s[..|t|] == t && s[|t|..] == rest;
      assert rest[1..] == JoinWords(ts[1..]);
      SplitJoinWords(ts[1..]);
      assert ts == [t] + ts[1..];
    }
  }

  /** A whitespace character at the end does not change the split. */
  lemma {:induction false} SplitAppendSpace(s: string, c: char)
    requires IsSpace(c)
    ensures Split(s + [c]) == Split(s)
    decreases |s|
  {
    var sc := s + [c];
    if |s| == 0 {
      assert Split(sc) == Split(sc[1..]);
      assert sc[1..] == [];
    } else if IsSpace(s[0]) {
      assert sc[1..] == s[1..] + [c];
      SplitAppendSpace(s[1..], c);
    } else {
      var n := TokenLength(s);
      TokenLengthAppend(s, [c]);
      assert sc[..n] == s[..n];
      assert sc[n..] == s[n..] + [c];
      SplitAppendSpace(s[n..], c);
    }
  }

  lemma {:induction false} TokenLengthAppend(s: string, t: string)
    requires |t| == 0 || IsSpace(t[0]) || TokenLength(s) < |s|
    ensures TokenLength(s + t) == TokenLength(s)
    decreases |s|
  {
    if |s| > 0 && !IsSpace(s[0]) {
      assert (s + t)[1..] == s[1..] + t;
      TokenLengthAppend(s[1..], t);
    } else if |s| == 0 {
      assert s + t == t;
    }
  }

  lemma {:induction false} SplitRStrip(s: string)
    ensures Split(RStrip(s)) == Split(s)
    decreases |s|
  {
    if |s| > 0 && IsSpace(s[|s| - 1]) {
      SplitRStrip(s[..|s| - 1]);
      SplitAppendSpace(s[..|s| - 1], s[|s| - 1]);
      assert s == s[..|s| - 1] + [s[|s| - 1]];
    }
  }

  lemma {:induction false} SplitLStrip(s: string)
    ensures Split(LStrip(s)) == Split(s)
    decreases |s|
  {
    if |s| > 0 && IsSpace(s[0]) {
      SplitLStrip(s[1..]);
    }
  }

  /** `s.strip().split() == s.split()`. */
  lemma SplitOfStrip(s: string)
    ensures Split(Strip(s)) == Split(s)
  {
    SplitRStrip(LStrip(s));
    SplitLStrip(s);
  }

  /** Removing a character that does not occur changes nothing. */
  lemma {:induction false} RemoveAbsentChar(s: string, c: char)
    requires c !in s
    ensures RemoveChar(s, c) == s
    decreases |s|
  {
    if |s| > 0 {
      assert c !in s[1..];
      RemoveAbsentChar(s[1..], c);
      assert s == [s[0]] + s[1..];
    }
  }
}
