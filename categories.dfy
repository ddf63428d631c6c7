/** The x-axis labels of the language chart: four quarter slots per year from
    2012 up to (not including) 2050, the year number in the first quarter's slot
    and an empty label in the other three, with the very first slot dropped. */
module Categories {

  /** A category label: a year number, or a text label (the empty string). */
  datatype Label = Num(n: int) | Text(s: string)

  const FirstYear: int := 2012
  /** Exclusive upper bound of the year range. */
  const EndYear: int := 2050

  /** The four quarter slots of year `y`. */
  function YearSlots(y: int): (r: seq<Label>)
    ensures |r| == 4 && r[0] == Num(y)
    ensures forall q :: 1 <= q < 4 ==> r[q] == Text("")
  {
    [Num(y), Text(""), Text(""), Text("")]
  }

  /** Flattened quarter slots for the years `lo` up to `hi` (exclusive). */
  function Slots(lo: int, hi: int): (r: seq<Label>)
    requires lo <= hi
    decreases hi - lo
    ensures |r| == 4 * (hi - lo)
    ensures forall k :: 0 <= k < |r| ==>
      r[k] == (if k % 4 == 0 then Num(lo + k / 4) else Text(""))
  {
    if lo == hi then []
    else
      var rest := Slots(lo + 1, hi);
      var r := YearSlots(lo) + rest;
      assert forall k :: 4 <= k < |r| ==> r[k] == rest[k - 4] && (k - 4) % 4 == k % 4 && (k - 4) / 4 + 1 == k / 4;
      r
  }

  /** The intended labelling: slot k of the output is quarter slot k + 1 of
      the full range, i.e. it holds a year exactly when k + 1 is a multiple of 4. */
  function Categories(): (r: seq<Label>)
    ensures |r| == 4 * (EndYear - FirstYear) - 1
    ensures forall k :: 0 <= k < |r| ==>
      r[k] == (if (k + 1) % 4 == 0 then Num(FirstYear + (k + 1) / 4) else Text(""))
  {
    Slots(FirstYear, EndYear)[1..]
  }

  /** 151 labels; the first one (2012/Q2) is blank. */
  lemma CategoriesShape()
    ensures |Categories()| == 151
    ensures Categories()[0] == Text("")
  {
  }

  /** Every year from 2013 to 2049 is labelled exactly once, at slot 4·(y − 2012) − 1. */
  lemma CategoriesYearOnce(y: int)
    requires FirstYear < y < EndYear
    ensures forall k :: 0 <= k < |Categories()| ==>
      (Categories()[k] == Num(y) <==> k == 4 * (y - FirstYear) - 1)
  {
    var c := Categories();
    forall k | 0 <= k < |c|
      ensures c[k] == Num(y) <==> k == 4 * (y - FirstYear) - 1
    {
      if c[k] == Num(y) {
        assert (k + 1) % 4 == 0 && FirstYear + (k + 1) / 4 == y;
      }
    }
  }

  /** Because the first slot is dropped, 2012 never receives a label, and only
      years and blanks occur. */
  lemma CategoriesLabels()
    ensures forall k :: 0 <= k < |Categories()| ==> Categories()[k] != Num(FirstYear)
    ensures forall k :: 0 <= k < |Categories()| ==>
      Categories()[k] == Text("") || FirstYear < Categories()[k].n < EndYear
  {
  }

  /** A JavaScript value, as far as the operands of `|` below need one: an
      integer number, an array, or a function. */
  datatype JsValue = JsNumber(i: int) | JsArray(elems: seq<JsValue>) | JsFunction

  /** The outcome of the ToNumber conversion on such a value. */
  datatype JsNumeric = Integer(i: int) | NaN

  /** ToNumber: an array converts through its string form, its elements
      joined by commas, so the empty array gives 0, a one-element array the
      number of its element, and a longer array a string with a comma in it,
      which is no numeral (NaN); a function's source text is no numeral either. */
  function ToNumber(v: JsValue): (r: JsNumeric)
  {
    match v
    case JsNumber(i) => Integer(i)
    case JsArray(es) => if |es| == 0 then Integer(0) else if |es| == 1 then ToNumber(es[0]) else NaN
    case JsFunction => NaN
  }

  const TwoTo32: int := 0x1_0000_0000

  /** ToUint32: NaN becomes 0; an integer is reduced modulo 2^32. */
  function ToUint32(x: JsNumeric): (r: int)
    ensures 0 <= r < TwoTo32
    ensures x.Integer? && 0 <= x.i < TwoTo32 ==> r == x.i
    ensures x.NaN? ==> r == 0
  {
    match x
    case NaN => 0
    case Integer(i) => i % TwoTo32
  }

  /** ToInt32: the same 32 bits read as a signed integer. */
  function ToInt32(x: JsNumeric): (r: int)
    ensures -0x8000_0000 <= r < 0x8000_0000
    ensures (r - ToUint32(x)) % TwoTo32 == 0
  {
    var u := ToUint32(x);
    if u < 0x8000_0000 then u else u - TwoTo32
  }

  function Pow2(k: nat): (p: nat)
    ensures p >= 1
  {
    if k == 0 then 1 else 2 * Pow2(k - 1)
  }

  lemma Pow2Of32()
    ensures Pow2(32) == TwoTo32
  {
    assert Pow2(8) == 0x100;
    assert Pow2(16) == 0x1_0000;
    assert Pow2(24) == 0x100_0000;
  }

  /** The bitwise or of the low `k` bits of `x` and `y`, lowest bit first. */
  function OrBits(x: nat, y: nat, k: nat): (r: nat)
    ensures r < Pow2(k)
  {
    if k == 0 then 0
    else 2 * OrBits(x / 2, y / 2, k - 1) + (if x % 2 == 1 || y % 2 == 1 then 1 else 0)
  }

  /** Zero is the identity of the bitwise or: it keeps every bit of `x`. */
  lemma {:induction false} OrBitsZero(x: nat, k: nat)
    requires x < Pow2(k)
    ensures OrBits(x, 0, k) == x
  {
    if k > 0 {
      OrBitsZero(x / 2, k - 1);
    }
  }

  /** `a | b`: both operands go through ToNumber and ToInt32, their 32-bit
      patterns are or-ed bit by bit, and the result is read as a signed
      integer. */
  function BitOr(a: JsValue, b: JsValue): (r: int)
    ensures -0x8000_0000 <= r < 0x8000_0000
  {
    var bits := OrBits(ToUint32(ToNumber(a)), ToUint32(ToNumber(b)), 32);
    ToInt32(Integer(bits))
  }

  /** An operand that is not a numeral converts to 0, the identity of `|`:
      or-ing a non-negative 32-bit integer with it gives the integer back,
      and two such operands give 0. */
  lemma BitOrNonNumeral(n: int, a: JsValue, b: JsValue)
    requires 0 <= n < 0x8000_0000
    requires ToNumber(a) == NaN && ToNumber(b) == NaN
    ensures BitOr(JsNumber(n), b) == n
    ensures BitOr(a, b) == 0
  {
    Pow2Of32();
    OrBitsZero(n, 32);
    OrBitsZero(0, 32);
  }

  /** Numerals combine bit by bit: 5 | 3 is 7. */
  lemma BitOrExamples()
    ensures BitOr(JsNumber(5), JsNumber(3)) == 7
  {
    OrBitsZero(0, 29);
    assert OrBits(5, 3, 32) == 2 * (2 * (2 * OrBits(0, 0, 29) + 1) + 1) + 1;
  }

  /** A one-element array counts as its element: [12] | 3 is 15. */
  lemma BitOrSingletonArray()
    ensures BitOr(JsArray([JsNumber(12)]), JsNumber(3)) == 15
  {
    OrBitsZero(0, 28);
    assert OrBits(12, 3, 32) == 2 * (2 * (2 * (2 * OrBits(0, 0, 28) + 1) + 1) + 1) + 1;
  }

  /** A negative operand keeps its sign bit: -1 or-ed with a non-numeral is -1. */
  lemma BitOrNegative()
    ensures BitOr(JsNumber(-1), JsFunction) == -1
  {
    Pow2Of32();
    OrBitsZero(TwoTo32 - 1, 32);
  }

  /** `range(1, 5)`: the quarters 1 to 4, an array of four numbers. */
  function Quarters(): (r: JsValue)
    ensures r.JsArray? && |r.elems| == 4
  {
    JsArray([JsNumber(1), JsNumber(2), JsNumber(3), JsNumber(4)])
  }

  /** The labelling as the code literally computes it: the two parts of the
      per-year lambda, the quarter array and the curried `map(...)` (a
      function), are joined by the bitwise-or operator; neither is a numeral,
      so every year yields the number 0 instead of four quarter slots.
      Flattening leaves one 0 per year and the first one is dropped. */
  function YearEntryAsWritten(y: int): (r: Label)
    ensures r == Num(0)
  {
    BitOrNonNumeral(0, Quarters(), JsFunction);
    Num(BitOr(Quarters(), JsFunction))
  }

  function EntriesAsWritten(lo: int, hi: int): (r: seq<Label>)
    requires lo <= hi
    decreases hi - lo
    ensures |r| == hi - lo
    ensures forall k :: 0 <= k < |r| ==> r[k] == Num(0)
  {
    if lo == hi then [] else [YearEntryAsWritten(lo)] + EntriesAsWritten(lo + 1, hi)
  }

  function CategoriesAsWritten(): (r: seq<Label>)
    ensures |r| == EndYear - FirstYear - 1
  {
    EntriesAsWritten(FirstYear, EndYear)[1..]
  }

  /** The literal code returns 37 zeros: no year label at all ever appears. */
  lemma CategoriesAsWrittenHasNoYears()
    ensures |CategoriesAsWritten()| == 37
    ensures forall k :: 0 <= k < |CategoriesAsWritten()| ==> CategoriesAsWritten()[k] == Num(0)
    ensures forall y, k :: FirstYear <= y < EndYear && 0 <= k < |CategoriesAsWritten()| ==>
      CategoriesAsWritten()[k] != Num(y)
    ensures CategoriesAsWritten() != Categories()
  {
    assert |CategoriesAsWritten()| != |Categories()|;
  }
}
