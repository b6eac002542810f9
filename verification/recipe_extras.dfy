/**
 * The `recipe_extras` template filters: `pretty_qty` writes a quantity as a
 * mixed number with a Unicode vulgar fraction, after approximating it by a
 * fraction with denominator at most 8; `ingredient_line` writes one
 * ingredient of a recipe as "name: quantity unit".
 */
module RecipeExtras {
  import opened Wrappers
  import opened Text

  // ---------------------------------------------------------------------
  // `Fraction(q).limit_denominator(8)`

  /** The largest denominator `pretty_qty` allows. */
  const MaxDenominator: int := 8

  function Abs(x: real): real { if x < 0.0 then -x else x }

  /** How far `n/d` lies from `q`. */
  function Dist(q: real, n: int, d: int): real
    requires d >= 1
  {
    Abs(q - (n as real) / (d as real))
  }

  lemma DistScaled(q: real, n: int, d: int)
    requires d >= 1
    ensures Dist(q, n, d) * (d as real) == Abs(q * (d as real) - n as real)
  {
    var dr := d as real;
    assert (q - (n as real) / dr) * dr == q * dr - n as real;
  }

  /** Multiplying by a positive number keeps the order of two reals. */
  lemma ScaleCompare(a: real, b: real, d: real, scaledA: real, scaledB: real)
    requires d > 0.0 && a * d == scaledA && b * d == scaledB && scaledA <= scaledB
    ensures a <= b
  {
  }

  /** Rounding `x` (halves upwards) gives an integer no farther from `x` than any other. */
  lemma RoundIsNearest(x: real, m: int)
    ensures Abs(x - (x + 0.5).Floor as real) <= 0.5
    ensures Abs(x - (x + 0.5).Floor as real) <= Abs(x - m as real)
  {
    var n := (x + 0.5).Floor;
    var nr, mr := n as real, m as real;
    assert nr <= x + 0.5 < nr + 1.0;
    if m > n {
      assert mr >= nr + 1.0;
    } else if m < n {
      assert mr <= nr - 1.0;
    }
  }

  /** The numerator that puts `n/d` nearest to `q`: `q·d` rounded, halves upwards. */
  function NearestNumerator(q: real, d: int): (n: int)
    requires d >= 1
    ensures Dist(q, n, d) * (d as real) <= 0.5
  {
    var x := q * (d as real);
    var n := (x + 0.5).Floor;
    DistScaled(q, n, d);
    RoundIsNearest(x, n);
    n
  }

  /** No numerator puts the fraction nearer to `q` than `NearestNumerator` does. */
  lemma NearestNumeratorBest(q: real, d: int, m: int)
    requires d >= 1
    ensures Dist(q, NearestNumerator(q, d), d) <= Dist(q, m, d)
  {
    var x := q * (d as real);
    var n := NearestNumerator(q, d);
    assert n == (x + 0.5).Floor;
    RoundIsNearest(x, m);
    DistCompare(q, n, m, d);
  }

  /** Comparing distances at one denominator is comparing the scaled numerators' distances. */
  lemma DistCompare(q: real, n: int, m: int, d: int)
    requires d >= 1
    requires Abs(q * (d as real) - n as real) <= Abs(q * (d as real) - m as real)
    ensures Dist(q, n, d) <= Dist(q, m, d)
  {
    var x := q * (d as real);
    DistAsQuotient(q, n, d);
    DistAsQuotient(q, m, d);
    DivideCompare(Abs(x - n as real), Abs(x - m as real), d as real);
  }

  /** The distance is the scaled distance divided by the denominator. */
  lemma DistAsQuotient(q: real, n: int, d: int)
    requires d >= 1
    ensures Dist(q, n, d) == Abs(q * (d as real) - n as real) / (d as real)
  {
    DistScaled(q, n, d);
  }

  /** Dividing by a positive number keeps the order of two reals. */
  lemma DivideCompare(a: real, b: real, d: real)
    requires d > 0.0 && a <= b
    ensures a / d <= b / d
  {
  }

  /**
   * The fraction with denominator at most `bound` nearest to `q`; of several
   * equally near, the one with the smallest denominator.
   */
  function Closest(q: real, bound: int): (r: (int, int))
    requires bound >= 1
    ensures 1 <= r.1 <= bound
    ensures forall n: int, d: int :: 1 <= d <= bound ==> Dist(q, r.0, r.1) <= Dist(q, n, d)
    ensures forall n: int, d: int :: 1 <= d < r.1 ==> Dist(q, r.0, r.1) < Dist(q, n, d)
  {
    if bound == 1 then
      var n := NearestNumerator(q, 1);
      assert forall m: int :: Dist(q, n, 1) <= Dist(q, m, 1) by {
        forall m: int ensures Dist(q, n, 1) <= Dist(q, m, 1) { NearestNumeratorBest(q, 1, m); }
      }
      (n, 1)
    else
      var b := Closest(q, bound - 1);
      var n := NearestNumerator(q, bound);
      assert forall m: int :: Dist(q, n, bound) <= Dist(q, m, bound) by {
        forall m: int ensures Dist(q, n, bound) <= Dist(q, m, bound) { NearestNumeratorBest(q, bound, m); }
      }
      if Dist(q, n, bound) < Dist(q, b.0, b.1) then (n, bound) else b
  }

  /** `Fraction(q).limit_denominator(8)` as (numerator, denominator). */
  function LimitDenominator(q: real): (r: (int, int))
    ensures 1 <= r.1 <= MaxDenominator
  {
    Closest(q, MaxDenominator)
  }

  predicate Divides(k: int, x: int)
    requires k >= 1
  {
    x % k == 0
  }

  /** The approximation comes back in lowest terms. */
  lemma LimitDenominatorLowestTerms(q: real, k: int)
    requires 2 <= k
    ensures var (n, d) := LimitDenominator(q);
      !(Divides(k, n) && Divides(k, d))
  {
    var (n, d) := LimitDenominator(q);
    if Divides(k, n) && Divides(k, d) {
      ReducedFraction(q, n, d, k);
      assert false;
    }
  }

  /** Dividing out a common factor gives the same fraction with a smaller denominator. */
  lemma ReducedFraction(q: real, n: int, d: int, k: int)
    requires 1 <= d && 2 <= k && Divides(k, n) && Divides(k, d)
    ensures 1 <= d / k < d && Dist(q, n / k, d / k) == Dist(q, n, d)
  {
    var n', d' := n / k, d / k;
    assert n == n' * k && d == d' * k;
    assert (n as real) == (n' as real) * (k as real);
    assert (d as real) == (d' as real) * (k as real);
    assert (n as real) / (d as real) == (n' as real) / (d' as real);
  }

  /** The approximation is never off by more than 1/16. */
  lemma LimitDenominatorError(q: real)
    ensures var (n, d) := LimitDenominator(q);
      Dist(q, n, d) <= 1.0 / 16.0
  {
    var n8 := NearestNumerator(q, 8);
    ScaleCompare(Dist(q, n8, 8), 1.0 / 16.0, 8.0, Dist(q, n8, 8) * 8.0, 0.5);
  }

  /** A quantity with denominator at most 8 is kept exactly. */
  lemma LimitDenominatorExact(a: int, b: int)
    requires 1 <= b <= MaxDenominator
    ensures var (n, d) := LimitDenominator((a as real) / (b as real));
      (n as real) / (d as real) == (a as real) / (b as real)
  {
    var q := (a as real) / (b as real);
    var (n, d) := LimitDenominator(q);
    assert Dist(q, a, b) == 0.0;
    assert Dist(q, n, d) == 0.0;
  }

  // ---------------------------------------------------------------------
  // `_frac_unicode`

  /** The fifteen fractions that have a Unicode glyph. */
  const Glyphs: map<(int, int), char> := map[
    (1, 2) := '\U{BD}', (1, 3) := '\U{2153}', (2, 3) := '\U{2154}',
    (1, 4) := '\U{BC}', (3, 4) := '\U{BE}',
    (1, 5) := '\U{2155}', (2, 5) := '\U{2156}', (3, 5) := '\U{2157}', (4, 5) := '\U{2158}',
    (1, 6) := '\U{2159}', (5, 6) := '\U{215A}',
    (1, 8) := '\U{215B}', (3, 8) := '\U{215C}', (5, 8) := '\U{215D}', (7, 8) := '\U{215E}'
  ]

  /** The fraction a glyph stands for: the inverse of `Glyphs`. */
  function GlyphValue(c: char): Option<(int, int)>
  {
    match c
    case '\U{BD}' => Some((1, 2))
    case '\U{2153}' => Some((1, 3))
    case '\U{2154}' => Some((2, 3))
    case '\U{BC}' => Some((1, 4))
    case '\U{BE}' => Some((3, 4))
    case '\U{2155}' => Some((1, 5))
    case '\U{2156}' => Some((2, 5))
    case '\U{2157}' => Some((3, 5))
    case '\U{2158}' => Some((4, 5))
    case '\U{2159}' => Some((1, 6))
    case '\U{215A}' => Some((5, 6))
    case '\U{215B}' => Some((1, 8))
    case '\U{215C}' => Some((3, 8))
    case '\U{215D}' => Some((5, 8))
    case '\U{215E}' => Some((7, 8))
    case _ => None
  }

  /** Each glyph names one fraction, a proper fraction in lowest terms, and is neither a digit, a sign nor a blank. */
  lemma GlyphsInvertible(n: int, d: int)
    requires (n, d) in Glyphs
    ensures GlyphValue(Glyphs[(n, d)]) == Some((n, d))
    ensures 0 < n < d <= MaxDenominator
    ensures forall k :: 2 <= k <= d ==> !(Divides(k, n) && Divides(k, d))
    ensures var c := Glyphs[(n, d)]; !IsDigit(c) && c != '-' && c != '/' && !IsSpace(c)
  {
  }

  /** `_frac_unicode(n, d)`: the glyph of `n/d` when there is one, "n/d" otherwise. */
  function FracUnicode(n: int, d: int): (s: string)
    ensures |s| == 1 <==> (n, d) in Glyphs
    ensures (n, d) in Glyphs ==> s == [Glyphs[(n, d)]]
    ensures (n, d) !in Glyphs ==> s == IntToString(n) + "/" + IntToString(d)
  {
    if (n, d) in Glyphs then [Glyphs[(n, d)]] else IntToString(n) + "/" + IntToString(d)
  }

  // ---------------------------------------------------------------------
  // `pretty_qty`

  /** What reaches `pretty_qty`: None, a value `Decimal` rejects, or a number. */
  datatype QtyInput = Missing | Unconvertible | Quantity(value: real)

  /**
   * `pretty_qty`: "" for None, for a value that does not convert, and for
   * zero; otherwise the approximation n/d split by `divmod` into a whole
   * part and a remainder, written as "whole glyph", "whole" or "glyph".
   */
  function PrettyQty(q: QtyInput): (s: string)
    ensures s == "" <==> q.Missing? || q.Unconvertible? || q.value == 0.0
    ensures s != "" ==> !IsSpace(s[0]) && !IsSpace(s[|s| - 1])
  {
    match q
    case Missing => ""
    case Unconvertible => ""
    case Quantity(x) =>
      if x == 0.0 then ""
      else
        var (n, d) := LimitDenominator(x);
        MixedNumber(n, d)
  }

  /** How `pretty_qty` writes the fraction n/d once it has it. */
  function MixedNumber(n: int, d: int): (s: string)
    requires d >= 1
    ensures s != "" && !IsSpace(s[0]) && !IsSpace(s[|s| - 1])
  {
    var whole, rem := n / d, n % d;
    if whole != 0 && rem != 0 then
      assert (rem, d) in Glyphs ==> !IsSpace(Glyphs[(rem, d)]) by {
        if (rem, d) in Glyphs { GlyphsInvertible(rem, d); }
      }
      IntToString(whole) + " " + FracUnicode(rem, d)
    else if whole != 0 then IntToString(whole)
    else
      assert (n, d) in Glyphs ==> !IsSpace(Glyphs[(n, d)]) by {
        if (n, d) in Glyphs { GlyphsInvertible(n, d); }
      }
      FracUnicode(n, d)
  }

  /** The parts `divmod(n, d)` splits a fraction into, with floor semantics. */
  lemma DivModParts(n: int, d: int)
    requires d >= 1
    ensures n == (n / d) * d + n % d && 0 <= n % d < d
    ensures (n as real) / (d as real) == (n / d) as real + ((n % d) as real) / (d as real)
  {
    var w, r := n / d, n % d;
    assert (n as real) == (w as real) * (d as real) + (r as real);
  }

  // ---------------------------------------------------------------------
  // Reading a written quantity back

  /** The value of a glyph or of "a/b". */
  function FractionValue(s: string): Option<real>
  {
    if |s| == 1 && GlyphValue(s[0]).Some? then
      var (n, d) := GlyphValue(s[0]).value;
      Some((n as real) / (d as real))
    else
      var i := IndexOf(s, '/');
      if i < 0 then None
      else
        var a, b := ParseInt(s[..i]), ParseInt(s[i + 1..]);
        if a.Some? && b.Some? && b.value != 0 then Some((a.value as real) / (b.value as real)) else None
  }

  /** The value of a written quantity, whole part and fraction added: the reading `divmod` implies. */
  function QuantityValue(s: string): Option<real>
  {
    var i := IndexOf(s, ' ');
    if i >= 0 then
      var whole, fraction := ParseInt(s[..i]), FractionValue(s[i + 1..]);
      if whole.Some? && fraction.Some? then Some(whole.value as real + fraction.value) else None
    else
      match ParseInt(s)
      case Some(w) => Some(w as real)
      case None => FractionValue(s)
  }

  lemma IntToStringPlain(i: int)
    ensures ' ' !in IntToString(i) && '/' !in IntToString(i)
    ensures forall k :: 0 <= k < |IntToString(i)| ==> GlyphValue(IntToString(i)[k]).None?
  {
  }

  lemma FracUnicodeValue(n: int, d: int)
    requires d >= 1
    ensures ' ' !in FracUnicode(n, d)
    ensures ParseInt(FracUnicode(n, d)).None?
    ensures FractionValue(FracUnicode(n, d)) == Some((n as real) / (d as real))
  {
    var s := FracUnicode(n, d);
    if (n, d) in Glyphs {
      GlyphsInvertible(n, d);
    } else {
      var a, b := IntToString(n), IntToString(d);
      IntToStringPlain(n);
      IntToStringPlain(d);
      IntToStringRoundTrip(n);
      IntToStringRoundTrip(d);
      assert s[..|a|] == a && s[|a| + 1..] == b;
      assert IndexOf(s, '/') == |a|;
      assert !IsDigit(s[|a|]);
      assert 1 <= |a|;
      if s[0] == '-' || s[0] == '+' {
        assert s[1..][|a| - 1] == '/';
      } else {
        assert s[|a|] == '/';
      }
    }
  }

  /** Reading the text `MixedNumber` writes gives back n/d. */
  lemma MixedNumberRoundTrip(n: int, d: int)
    requires d >= 1
    ensures QuantityValue(MixedNumber(n, d)) == Some((n as real) / (d as real))
  {
    var whole, rem := n / d, n % d;
    var q := (n as real) / (d as real);
    if whole != 0 && rem != 0 {
      var v := (rem as real) / (d as real);
      assert q == whole as real + v by { DivModParts(n, d); }
      assert FractionValue(FracUnicode(rem, d)) == Some(v) by { FracUnicodeValue(rem, d); }
      MixedRoundTrip(whole, rem, d, v, q);
      assert MixedNumber(n, d) == IntToString(whole) + " " + FracUnicode(rem, d);
    } else if whole != 0 {
      assert q == whole as real by { DivModParts(n, d); }
      WholeRoundTrip(whole);
      assert MixedNumber(n, d) == IntToString(whole);
    } else {
      assert n == rem by { DivModParts(n, d); }
      FracUnicodeValue(n, d);
      assert QuantityValue(FracUnicode(n, d)) == FractionValue(FracUnicode(n, d));
      assert MixedNumber(n, d) == FracUnicode(n, d);
    }
  }

  lemma MixedRoundTrip(whole: int, rem: int, d: int, v: real, total: real)
    requires d >= 1
    requires FractionValue(FracUnicode(rem, d)) == Some(v) && total == whole as real + v
    ensures QuantityValue(IntToString(whole) + " " + FracUnicode(rem, d)) == Some(total)
  {
    var w := IntToString(whole);
    assert ' ' !in w by { IntToStringPlain(whole); }
    assert ParseInt(w) == Some(whole) by { IntToStringRoundTrip(whole); }
    ReadMixed(w, FracUnicode(rem, d), whole, v, total);
  }

  /** "w f" reads as the whole part `w` plus the fraction `f`. */
  lemma ReadMixed(w: string, f: string, a: int, v: real, total: real)
    requires ' ' !in w && ParseInt(w) == Some(a) && FractionValue(f) == Some(v) && total == a as real + v
    ensures QuantityValue(w + " " + f) == Some(total)
  {
    var s := w + " " + f;
    assert s == w + [' '] + f;
    FirstSeparator(w, ' ', f);
    var i := IndexOf(s, ' ');
    assert i == |w| && s[..i] == w && s[i + 1..] == f;
    assert ParseInt(s[..i]) == Some(a) && FractionValue(s[i + 1..]) == Some(v);
  }

  lemma WholeRoundTrip(whole: int)
    ensures QuantityValue(IntToString(whole)) == Some(whole as real)
  {
    IntToStringPlain(whole);
    IntToStringRoundTrip(whole);
  }

  /** Reading the text `pretty_qty` writes gives back the approximation n/d. */
  lemma PrettyQtyRoundTrip(x: real)
    requires x != 0.0
    ensures var (n, d) := LimitDenominator(x);
      QuantityValue(PrettyQty(Quantity(x))) == Some((n as real) / (d as real))
  {
    var r := LimitDenominator(x);
    assert PrettyQty(Quantity(x)) == MixedNumber(r.0, r.1);
    MixedNumberRoundTrip(r.0, r.1);
  }

  /** A quantity that rounds to zero but is not zero is written "0/1". */
  lemma TinyQuantityShowsZero(x: real)
    requires x != 0.0 && -1.0 / 16.0 < x < 1.0 / 16.0
    ensures PrettyQty(Quantity(x)) == "0/1"
  {
    var (n, d) := LimitDenominator(x);
    assert Dist(x, 0, 1) < 1.0 / 16.0;
    assert n == 0 by {
      if n != 0 {
        FarFromZero(x, n, d);
      }
    }
    assert d == 1;
    assert MixedNumber(0, 1) == FracUnicode(0, 1) == "0/1";
  }

  /** A fraction with a non-zero numerator and denominator at most 8 lies at least 1/8 from zero. */
  lemma FarFromZero(x: real, n: int, d: int)
    requires n != 0 && 1 <= d <= 8 && -1.0 / 16.0 < x < 1.0 / 16.0
    ensures Dist(x, n, d) > 1.0 / 16.0
  {
    var dr := d as real;
    var f := (n as real) / dr;
    assert f * dr == n as real;
    if n > 0 {
      ScaleCompare(1.0 / 8.0, f, dr, dr / 8.0, n as real);
    } else {
      ScaleCompare(f, -1.0 / 8.0, dr, n as real, -dr / 8.0);
    }
  }

  // ---------------------------------------------------------------------
  // `ingredient_line`

  /** The name shown for an ingredient: "Ingredient" when there is none or it is empty. */
  function ShownName(name: Option<string>): string
  {
    OrDefault(name, "Ingredient")
  }

  /**
   * `ingredient_line`: the name alone when `pretty_qty` writes nothing,
   * otherwise "name: quantity unit" with the unit stripped and the whole
   * line stripped.
   */
  function IngredientLine(name: Option<string>, quantity: QtyInput, unit: Option<string>): (line: string)
    ensures PrettyQty(quantity) == "" ==> line == ShownName(name)
  {
    var shown := ShownName(name);
    var qty := PrettyQty(quantity);
    var u := Strip(match unit case Some(t) => t case None => "");
    if qty != "" then Strip(shown + ": " + qty + " " + u) else shown
  }

  /** How the stripped line comes out for parts without surrounding blanks. */
  lemma LineShape(shown: string, qty: string, u: string)
    requires shown != "" && !IsSpace(shown[0]) && !IsSpace(shown[|shown| - 1])
    requires qty != "" && !IsSpace(qty[0]) && !IsSpace(qty[|qty| - 1])
    requires u == [] || (!IsSpace(u[0]) && !IsSpace(u[|u| - 1]))
    ensures Strip(shown + ": " + qty + " " + u) == shown + ": " + qty + (if u == "" then "" else " " + u)
  {
    var head := shown + ": " + qty;
    assert head[0] == shown[0] && head[|head| - 1] == qty[|qty| - 1];
    if u == "" {
      assert head + " " + u == head + " ";
      StripTrailingBlank(head);
    } else {
      var full := head + " " + u;
      assert full[0] == shown[0] && full[|full| - 1] == u[|u| - 1];
      StripUnchanged(full);
    }
  }

  /**
   * For a name without surrounding blanks and a quantity that is written,
   * the line is exactly "name: quantity unit", and "name: quantity" with no
   * trailing blank when the unit is empty or blank.
   */
  lemma IngredientLineShape(name: Option<string>, quantity: QtyInput, unit: Option<string>)
    requires PrettyQty(quantity) != ""
    requires var shown := ShownName(name); !IsSpace(shown[0]) && !IsSpace(shown[|shown| - 1])
    ensures var u := Strip(match unit case Some(t) => t case None => "");
      IngredientLine(name, quantity, unit) ==
        ShownName(name) + ": " + PrettyQty(quantity) + (if u == "" then "" else " " + u)
  {
    var shown, qty := ShownName(name), PrettyQty(quantity);
    var u := Strip(match unit case Some(t) => t case None => "");
    assert IngredientLine(name, quantity, unit) == Strip(shown + ": " + qty + " " + u);
    LineShape(shown, qty, u);
  }
}
