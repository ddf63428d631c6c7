/** Chart series and the two whole-list transformations on them: left-padding
    every series with zeros to a common length, and turning counts into each
    series' share of the column total. */
module Series {

  /** One chart line: a language name, its colour, whether it is shown, and
      its values per quarter (oldest first). */
  datatype Series<T> = Series(name: string, color: string, visible: bool, data: seq<T>)

  /** A value of the percentage view. Dividing by a zero column total does
      not fail in the source: it yields NaN for 0/0 and an infinity of the
      numerator's sign otherwise. */
  datatype Quotient = Finite(value: real) | NaN | Infinity(positive: bool)

  /** Number division with the source's behaviour for a zero divisor. */
  function Divide(x: real, t: real): (q: Quotient)
    ensures q.Finite? <==> t != 0.0
    ensures q.Finite? ==> q.value * t == x
    ensures q == NaN <==> t == 0.0 && x == 0.0
    ensures q.Infinity? ==> q.positive == (x > 0.0)
  {
    if t != 0.0 then Finite(x / t)
    else if x == 0.0 then NaN
    else Infinity(x > 0.0)
  }

  /** The longest `data` length over all series (0 for no series). */
  function MaxLen<T>(ss: seq<Series<T>>): (m: nat)
    ensures forall i :: 0 <= i < |ss| ==> |ss[i].data| <= m
    ensures ss == [] ==> m == 0
    ensures ss != [] ==> exists i :: 0 <= i < |ss| && |ss[i].data| == m
  {
    if ss == [] then 0
    else
      var m := MaxLen(ss[1..]);
      if |ss[0].data| >= m then |ss[0].data| else m
  }

  /** All series have the same number of values. */
  predicate Aligned<T>(ss: seq<Series<T>>)
  {
    forall i, j :: 0 <= i < |ss| && 0 <= j < |ss| ==> |ss[i].data| == |ss[j].data|
  }

  function Zeros(n: nat): (z: seq<real>)
    ensures |z| == n
    ensures forall k :: 0 <= k < n ==> z[k] == 0.0
  {
    seq(n, _ => 0.0)
  }

  /** `d` is `c` preceded by zeros. */
  predicate LeftPadded(d: seq<real>, c: seq<real>)
  {
    && |c| <= |d|
    && d[|d| - |c|..] == c
    && forall k :: 0 <= k < |d| - |c| ==> d[k] == 0.0
  }

  /** `d` left-padded with zeros to length `n`. */
  function Pad(d: seq<real>, n: nat): (r: seq<real>)
    requires |d| <= n
    ensures |r| == n
    ensures r[n - |d|..] == d
    ensures forall k :: 0 <= k < n - |d| ==> r[k] == 0.0
  {
    Zeros(n - |d|) + d
  }

  /** Left-pads every series' data with zeros up to the longest length. Only
      `data` changes; each original `data` is a suffix of the new one. */
  function FillZeros(ss: seq<Series<real>>): (r: seq<Series<real>>)
    ensures |r| == |ss|
    ensures forall i :: 0 <= i < |r| ==> r[i] == ss[i].(data := r[i].data)
    ensures forall i :: 0 <= i < |r| ==> |r[i].data| == MaxLen(ss)
    ensures forall i :: 0 <= i < |r| ==> r[i].data[MaxLen(ss) - |ss[i].data|..] == ss[i].data
    ensures forall i, k :: 0 <= i < |r| && 0 <= k < MaxLen(ss) - |ss[i].data| ==> r[i].data[k] == 0.0
  {
    var n := MaxLen(ss);
    seq(|ss|, i requires 0 <= i < |ss| => ss[i].(data := Pad(ss[i].data, n)))
  }

  /** Padded series `j` keeps its name, colour and visibility, has the
      maximal length, ends with its original data and is zero before it. */
  lemma FillZerosAt(ss: seq<Series<real>>, j: nat)
    requires j < |ss|
    ensures FillZeros(ss)[j].name == ss[j].name
    ensures |FillZeros(ss)[j].data| == MaxLen(ss)
    ensures LeftPadded(FillZeros(ss)[j].data, ss[j].data)
  {
  }

  /** After padding, all series are aligned and the longest length is kept. */
  lemma FillZerosAligned(ss: seq<Series<real>>)
    ensures Aligned(FillZeros(ss))
    ensures MaxLen(FillZeros(ss)) == MaxLen(ss)
  {
    var r := FillZeros(ss);
    if ss != [] {
      assert |r[0].data| == MaxLen(ss);
    }
  }

  /** On input that is already aligned, padding changes nothing. */
  lemma FillZerosIdentityOnAligned(ss: seq<Series<real>>)
    requires Aligned(ss)
    ensures FillZeros(ss) == ss
  {
    var r := FillZeros(ss);
    forall i | 0 <= i < |ss|
      ensures r[i] == ss[i]
    {
      assert |ss[i].data| == MaxLen(ss);
      assert r[i].data == r[i].data[0..] == ss[i].data;
    }
  }

  /** Padding twice is padding once. */
  lemma FillZerosIdempotent(ss: seq<Series<real>>)
    ensures FillZeros(FillZeros(ss)) == FillZeros(ss)
  {
    FillZerosAligned(ss);
    FillZerosIdentityOnAligned(FillZeros(ss));
  }

  /** Number of values per series of aligned input (0 for no series). */
  function Width<T>(ss: seq<Series<T>>): (w: nat)
    requires Aligned(ss)
    ensures forall i :: 0 <= i < |ss| ==> |ss[i].data| == w
  {
    if ss == [] then 0 else |ss[0].data|
  }

  /** Sum of the values of all series at time index `i`. */
  function ColumnTotal(ss: seq<Series<real>>, i: nat): (t: real)
    requires forall s :: 0 <= s < |ss| ==> i < |ss[s].data|
  {
    if ss == [] then 0.0 else ss[0].data[i] + ColumnTotal(ss[1..], i)
  }

  /** The column totals, one per time index. */
  function Totals(ss: seq<Series<real>>): (t: seq<real>)
    requires Aligned(ss)
    ensures |t| == Width(ss)
    ensures forall i :: 0 <= i < |t| ==> t[i] == ColumnTotal(ss, i)
  {
    seq(Width(ss), i requires 0 <= i < Width(ss) => ColumnTotal(ss, i))
  }

  /** Element-wise division of `d` by `totals`. */
  function DivideBy(d: seq<real>, totals: seq<real>): (r: seq<Quotient>)
    requires |d| == |totals|
    ensures |r| == |d|
    ensures forall i :: 0 <= i < |d| ==> r[i] == Divide(d[i], totals[i])
  {
    seq(|d|, i requires 0 <= i < |d| => Divide(d[i], totals[i]))
  }

  /** Replaces every value by its share of the column total. Series count,
      order, names, colours and visibility are kept. */
  function PercentageData(ss: seq<Series<real>>): (r: seq<Series<Quotient>>)
    requires Aligned(ss)
    ensures |r| == |ss|
    ensures forall s :: 0 <= s < |r| ==>
      r[s].name == ss[s].name && r[s].color == ss[s].color && r[s].visible == ss[s].visible
    ensures forall s :: 0 <= s < |r| ==> |r[s].data| == |ss[s].data|
    ensures forall s, i :: 0 <= s < |r| && 0 <= i < |r[s].data| ==>
      r[s].data[i] == Divide(ss[s].data[i], ColumnTotal(ss, i))
  {
    var total := Totals(ss);
    seq(|ss|, s requires 0 <= s < |ss| =>
      Series(ss[s].name, ss[s].color, ss[s].visible, DivideBy(ss[s].data, total)))
  }

  /** Every value is at least zero. */
  predicate NonNegative(ss: seq<Series<real>>)
  {
    forall s, i :: 0 <= s < |ss| && 0 <= i < |ss[s].data| ==> ss[s].data[i] >= 0.0
  }

  /** Padding adds only zeros, so it keeps values non-negative. */
  lemma FillZerosNonNegative(ss: seq<Series<real>>)
    requires NonNegative(ss)
    ensures NonNegative(FillZeros(ss))
  {
    var r := FillZeros(ss);
    forall s, i | 0 <= s < |r| && 0 <= i < |r[s].data|
      ensures r[s].data[i] >= 0.0
    {
      var pad := MaxLen(ss) - |ss[s].data|;
      if i >= pad {
        assert r[s].data[i] == r[s].data[pad..][i - pad] == ss[s].data[i - pad];
      }
    }
  }

  /** Sum of the finite shares at time index `i` (non-finite ones add 0). */
  function ShareSum(rs: seq<Series<Quotient>>, i: nat): (t: real)
    requires forall s :: 0 <= s < |rs| ==> i < |rs[s].data|
  {
    if rs == [] then 0.0
    else (if rs[0].data[i].Finite? then rs[0].data[i].value else 0.0) + ShareSum(rs[1..], i)
  }

  /** With non-negative values, a column total bounds each of its values. */
  lemma {:induction false} ColumnTotalBounds(ss: seq<Series<real>>, i: nat)
    requires NonNegative(ss)
    requires forall s :: 0 <= s < |ss| ==> i < |ss[s].data|
    ensures ColumnTotal(ss, i) >= 0.0
    ensures forall s :: 0 <= s < |ss| ==> ss[s].data[i] <= ColumnTotal(ss, i)
  {
    if ss != [] {
      ColumnTotalBounds(ss[1..], i);
      forall s | 1 <= s < |ss|
        ensures ss[s].data[i] <= ColumnTotal(ss, i)
      {
        assert ss[s] == ss[1..][s - 1];
      }
    }
  }

  /** Dividing every value of a column by the same non-zero `t` divides
      the column total by `t`. */
  lemma {:induction false} ShareSumScales(rs: seq<Series<Quotient>>, ss: seq<Series<real>>, i: nat, t: real)
    requires t != 0.0
    requires |rs| == |ss|
    requires forall s :: 0 <= s < |ss| ==> i < |ss[s].data| && i < |rs[s].data|
    requires forall s :: 0 <= s < |ss| ==> rs[s].data[i] == Divide(ss[s].data[i], t)
    ensures ShareSum(rs, i) == ColumnTotal(ss, i) / t
  {
    if ss != [] {
      ShareSumScales(rs[1..], ss[1..], i, t);
      assert rs[0].data[i] == Finite(ss[0].data[i] / t);
      DivideSum(ss[0].data[i], ColumnTotal(ss[1..], i), t);
    }
  }

  lemma DivideSum(a: real, b: real, t: real)
    requires t != 0.0
    ensures a / t + b / t == (a + b) / t
  {
    var x, y := a / t, b / t;
    assert x * t == a && y * t == b;
    assert (x + y) * t == a + b;
  }

  lemma ShareInUnit(x: real, t: real)
    requires 0.0 <= x <= t && t > 0.0
    ensures Divide(x, t).Finite? && 0.0 <= Divide(x, t).value <= 1.0
  {
    DivideBounds(x, t);
  }

  lemma DivideBounds(x: real, t: real)
    requires 0.0 <= x <= t && t > 0.0
    ensures 0.0 <= x / t <= 1.0
  {
    var q := x / t;
    assert q * t == x;
  }

  /** With non-negative counts, a value's share of a positive column total
      is finite and between 0 and 1. */
  lemma PercentageShareInUnit(ss: seq<Series<real>>, i: nat, s: nat)
    requires Aligned(ss) && NonNegative(ss)
    requires i < Width(ss) && s < |ss|
    requires ColumnTotal(ss, i) > 0.0
    ensures PercentageData(ss)[s].data[i].Finite?
    ensures 0.0 <= PercentageData(ss)[s].data[i].value <= 1.0
  {
    var t := ColumnTotal(ss, i);
    ColumnTotalBounds(ss, i);
    assert PercentageData(ss)[s].data[i] == Divide(ss[s].data[i], t);
    ShareInUnit(ss[s].data[i], t);
  }

  /** With non-negative counts, every column with a positive total turns into
      finite shares between 0 and 1 that sum to exactly 1. */
  lemma PercentageColumnSumsToOne(ss: seq<Series<real>>, i: nat)
    requires Aligned(ss) && NonNegative(ss)
    requires i < Width(ss)
    requires ColumnTotal(ss, i) > 0.0
    ensures forall s :: 0 <= s < |ss| ==>
      PercentageData(ss)[s].data[i].Finite? &&
      0.0 <= PercentageData(ss)[s].data[i].value <= 1.0
    ensures ShareSum(PercentageData(ss), i) == 1.0
  {
    forall s | 0 <= s < |ss|
      ensures PercentageData(ss)[s].data[i].Finite? && 0.0 <= PercentageData(ss)[s].data[i].value <= 1.0
    {
      PercentageShareInUnit(ss, i, s);
    }
    var t := ColumnTotal(ss, i);
    ShareSumScales(PercentageData(ss), ss, i, t);
    DivideSelf(t);
  }

  lemma DivideSelf(t: real)
    requires t != 0.0
    ensures t / t == 1.0
  {
  }

  /** The source has no guard for a zero total: with non-negative counts a
      column that sums to 0 is all zeros, and each of its shares is 0/0 = NaN. */
  lemma PercentageZeroColumnIsNaN(ss: seq<Series<real>>, i: nat)
    requires Aligned(ss) && NonNegative(ss)
    requires i < Width(ss)
    requires ColumnTotal(ss, i) == 0.0
    ensures forall s :: 0 <= s < |ss| ==> PercentageData(ss)[s].data[i] == NaN
  {
    ColumnTotalBounds(ss, i);
  }
}
