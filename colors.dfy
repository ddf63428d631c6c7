/** Series colours: the canonical colour of a known language, or a random
    hexadecimal colour for any other. */
module Colors {

  /** `d` as a lower-case hexadecimal digit. */
  function HexDigit(d: nat): (c: char)
    requires d < 16
    ensures IsHexDigit(c)
  {
    if d < 10 then ('0' as int + d) as char else ('a' as int + d - 10) as char
  }

  predicate IsHexDigit(c: char)
  {
    '0' <= c <= '9' || 'a' <= c <= 'f'
  }

  /** The value of a lower-case hexadecimal digit. */
  function DigitValue(c: char): (d: nat)
    requires IsHexDigit(c)
    ensures d < 16
  {
    if c <= '9' then (c as int - '0' as int) as nat else (c as int - 'a' as int + 10) as nat
  }

  /** `n.toString(16)`: lower-case hexadecimal without leading zeros. */
  function Hex(n: nat): (h: string)
    ensures 1 <= |h|
    ensures forall k :: 0 <= k < |h| ==> IsHexDigit(h[k])
    ensures |h| > 1 ==> h[0] != '0'
    ensures n > 0 ==> h[0] != '0'
  {
    if n < 16 then [HexDigit(n)] else Hex(n / 16) + [HexDigit(n % 16)]
  }

  /** Reads a hexadecimal numeral. */
  function HexValue(h: string): (v: nat)
    requires forall k :: 0 <= k < |h| ==> IsHexDigit(h[k])
  {
    if h == [] then 0 else 16 * HexValue(h[..|h| - 1]) + DigitValue(h[|h| - 1])
  }

  /** Reading back what `Hex` wrote gives the number. */
  lemma {:induction false} HexRoundTrip(n: nat)
    ensures HexValue(Hex(n)) == n
  {
    if n >= 16 {
      HexRoundTrip(n / 16);
      var h := Hex(n);
      assert h[..|h| - 1] == Hex(n / 16);
      assert DigitValue(h[|h| - 1]) == n % 16;
    }
  }

  function Pow16(k: nat): (p: nat)
    ensures p >= 1
  {
    if k == 0 then 1 else 16 * Pow16(k - 1)
  }

  /** A number below 16^k has at most k digits (and always at least one). */
  lemma {:induction false} HexLength(n: nat, k: nat)
    requires 1 <= k && n < Pow16(k)
    ensures |Hex(n)| <= k
  {
    if n >= 16 {
      assert k != 1;
      HexLength(n / 16, k - 1);
    }
  }

  /** The random fallback draws an integer below this bound. */
  const RandomColorBound: int := 16777215

  /** `"#" + Math.floor(draw * 16777215).toString(16)` for a draw in [0, 1). */
  function RandomColor(draw: real): (c: string)
    requires 0.0 <= draw < 1.0
    ensures |c| >= 2 && c[0] == '#'
    ensures forall k :: 1 <= k < |c| ==> IsHexDigit(c[k])
  {
    var v := (draw * RandomColorBound as real).Floor;
    "#" + Hex(v)
  }

  /** The fallback colour has between one and six digits and its value is
      below 0xffffff. It is not zero-padded: the first digit is never '0'
      unless it is the only one, and a draw small enough that the scaled
      value is below 16 gives a colour of a single digit, such as "#0". */
  lemma RandomColorShape(draw: real)
    requires 0.0 <= draw < 1.0
    ensures 2 <= |RandomColor(draw)| <= 7
    ensures HexValue(RandomColor(draw)[1..]) < RandomColorBound
    ensures |RandomColor(draw)| > 2 ==> RandomColor(draw)[1] != '0'
    ensures draw * RandomColorBound as real < 16.0 <==> |RandomColor(draw)| == 2
    ensures RandomColor(0.0) == "#0"
  {
    var v := (draw * RandomColorBound as real).Floor;
    assert 0 <= v < RandomColorBound;
    assert RandomColor(draw)[1..] == Hex(v);
    HexRoundTrip(v);
    assert Pow16(6) == 16777216;
    HexLength(v, 6);
  }

  /** A draw oracle standing for `Math.random()`: one value in [0, 1) per
      retained series position. */
  ghost predicate IsDrawOracle(rand: nat -> real)
  {
    forall i :: 0.0 <= rand(i) < 1.0
  }

  /** The canonical colour when the palette knows the name, otherwise the
      random fallback. */
  function ColorOf(palette: map<string, string>, name: string, draw: real): (c: string)
    requires 0.0 <= draw < 1.0
    ensures name in palette ==> c == palette[name]
    ensures name !in palette ==> 2 <= |c| <= 7 && c[0] == '#'
    ensures name !in palette ==> forall k :: 1 <= k < |c| ==> IsHexDigit(c[k])
  {
    if name in palette then palette[name]
    else
      RandomColorShape(draw);
      RandomColor(draw)
  }
}
