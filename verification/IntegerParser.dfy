/** `integer_parser` of cxxopts at any width of at least eight bits. */
module IntegerParser {
  import opened Primitives
  import opened Sequences

  function Pow2(n: nat): (r: nat)
    ensures r > 0
  {
    if n == 0 then 1 else 2 * Pow2(n - 1)
  }

  /** 2^w, the modulus of the unsigned type. */
  function Modulus(w: nat): nat { Pow2(w) }

  function MaxOf(w: nat, signed: bool): int
    requires w >= 1
  {
    if signed then Pow2(w - 1) - 1 else Pow2(w) - 1
  }

  function MinOf(w: nat, signed: bool): int
    requires w >= 1
  {
    if signed then 0 - Pow2(w - 1) else 0
  }

  predicate Representable(v: int, w: nat, signed: bool)
    requires w >= 1
  {
    MinOf(w, signed) <= v <= MaxOf(w, signed)
  }

  // ----- literals

  predicate IsAlnum(c: char) { '0' <= c <= '9' || 'a' <= c <= 'z' || 'A' <= c <= 'Z' }

  predicate AllAlnum(s: string) { forall i :: 0 <= i < |s| ==> IsAlnum(s[i]) }

  datatype Literal = Literal(negative: bool, base: nat, digits: string)

  /** What `integer_pattern` matches, preferring the "0x" prefix as its greedy group does. */
  function Match(text: string): (r: Option<Literal>)
    ensures r.Some? ==> r.value.base in {10, 16} && r.value.digits != ""
  {
    var negative := text != "" && text[0] == '-';
    var rest := if negative then text[1..] else text;
    if |rest| > 2 && rest[..2] == "0x" && AllAlnum(rest[2..]) then Some(Literal(negative, 16, rest[2..]))
    else if rest != "" && AllAlnum(rest) then Some(Literal(negative, 10, rest))
    else None
  }

  function DigitOf(c: char, base: nat): (d: Option<nat>)
    ensures d.Some? && base in {10, 16} ==> d.value < base
  {
    if '0' <= c <= '9' then Some((c - '0') as nat)
    else if base == 16 && 'a' <= c <= 'f' then Some((c - 'a') as nat + 10)
    else if base == 16 && 'A' <= c <= 'F' then Some((c - 'A') as nat + 10)
    else None
  }

  predicate AllDigits(s: string, base: nat) { forall i :: 0 <= i < |s| ==> DigitOf(s[i], base).Some? }

  /** The number the digits stand for. */
  function Value(s: string, base: nat): nat
    requires AllDigits(s, base)
  {
    if s == "" then 0 else Value(s[..|s| - 1], base) * base + DigitOf(s[|s| - 1], base).value
  }

  function Meaning(l: Literal): int
    requires AllDigits(l.digits, l.base)
  {
    if l.negative then 0 - Value(l.digits, l.base) else Value(l.digits, l.base)
  }

  // ----- the accumulator

  /** One turn of the digit loop on the unsigned type; None is a thrown error. */
  function NextValue(m: nat, base: nat, result: nat, c: char): Option<nat>
    requires m > 0
  {
    var d := DigitOf(c, base);
    if d.None? then None
    else
      var next := (result * base + d.value) % m;
      if result > next then None else Some(next)
  }

  function Accumulate(m: nat, base: nat, s: string): Option<nat>
    requires m > 0
  {
    if s == "" then Some(0)
    else
      var before := Accumulate(m, base, s[..|s| - 1]);
      if before.None? then None else NextValue(m, base, before.value, s[|s| - 1])
  }

  /** The value of an unsigned word read as two's complement. */
  function ToSigned(x: int, w: nat): int
    requires w >= 1
  {
    var y := x % Pow2(w);
    if y >= Pow2(w - 1) then y - Pow2(w) else y
  }

  /** `-static_cast<R>(t-1)-1`. */
  function CheckedNegate(t: nat, w: nat): int
    requires w >= 1
  {
    -ToSigned(t - 1, w) - 1
  }

  function ParseInt(text: string, w: nat, signed: bool): Option<int>
    requires w >= 8
  {
    match Match(text)
    case None => None
    case Some(l) =>
      match Accumulate(Modulus(w), l.base, l.digits)
      case None => None
      case Some(u) =>
        if signed && u > (if l.negative then Pow2(w - 1) else Pow2(w - 1) - 1) then None
        else if l.negative then (if signed then Some(CheckedNegate(u, w)) else None)
        else Some(u)
  }

  lemma AccumulateSnoc(m: nat, base: nat, s: string, i: nat)
    requires m > 0 && i < |s|
    ensures Accumulate(m, base, s[..i + 1]) ==
            match Accumulate(m, base, s[..i])
            case None => None
            case Some(r) => NextValue(m, base, r, s[i])
  {
    assert s[..i + 1][..i] == s[..i];
  }

  method ParseInteger(text: string, w: nat, signed: bool) returns (value: Option<int>)
    requires w >= 8
    ensures value == ParseInt(text, w, signed)
  {
    var l := Match(text);
    if l.None? {
      return None;
    }
    var digits, base := l.value.digits, l.value.base;
    var m := Modulus(w);
    var result: nat := 0;
    var i := 0;
    while i < |digits|
      invariant i <= |digits|
      invariant Accumulate(m, base, digits[..i]) == Some(result)
    {
      AccumulateSnoc(m, base, digits, i);
      var digit := DigitOf(digits[i], base);
      if digit.None? {
        RefusedPrefix(m, base, digits, i + 1);
        return None;
      }
      var next := (result * base + digit.value) % m;
      if result > next {
        RefusedPrefix(m, base, digits, i + 1);
        return None;
      }
      result := next;
      i := i + 1;
    }
    assert digits[..i] == digits;
    if signed {
      if l.value.negative {
        if result > Pow2(w - 1) {
          return None;
        }
      } else if result > Pow2(w - 1) - 1 {
        return None;
      }
    }
    if l.value.negative {
      value := if signed then Some(CheckedNegate(result, w)) else None;
    } else {
      value := Some(result);
    }
  }

  lemma {:induction false} RefusedPrefix(m: nat, base: nat, s: string, k: nat)
    requires m > 0 && k <= |s| && Accumulate(m, base, s[..k]) == None
    ensures Accumulate(m, base, s) == None
    decreases |s| - k
  {
    if k == |s| {
      assert s[..k] == s;
    } else {
      assert s[..k + 1][..k] == s[..k];
      RefusedPrefix(m, base, s, k + 1);
    }
  }

  predicate Congruent(a: int, b: int, m: nat)
    requires m > 0
  {
    (a - b) % m == 0
  }

  // ----- modular arithmetic

  lemma StepIsCongruent(v: nat, base: nat, d: nat, m: nat)
    requires m > 0
    ensures (v % m * base + d) % m == (v * base + d) % m
  {
    var q := v / m;
    var x := v % m * base + d;
    assert v * base == (q * m + v % m) * base == (q * base) * m + v % m * base;
    assert x == x / m * m + x % m;
    assert v * base + d == (q * base + x / m) * m + x % m;
    ModUnique(v * base + d, q * base + x / m, m, x % m);
  }

  /** The value of each prefix, modulo m, is at least that of the one before. */
  predicate ResiduesGrow(m: nat, base: nat, s: string)
    requires m > 0 && AllDigits(s, base)
  {
    if s == "" then true
    else
      var front := s[..|s| - 1];
      ResiduesGrow(m, base, front) && Value(front, base) % m <= Value(s, base) % m
  }

  /** The wraparound test refuses exactly the literals with a prefix whose value is smaller, modulo m,
      than that of the prefix before. */
  lemma {:induction false} AcceptedIffResiduesGrow(m: nat, base: nat, s: string)
    requires m > 0
    ensures Accumulate(m, base, s).Some? <==> AllDigits(s, base) && ResiduesGrow(m, base, s)
    decreases |s|
  {
    if s != "" {
      var n := |s| - 1;
      AcceptedIffResiduesGrow(m, base, s[..n]);
      if Accumulate(m, base, s[..n]).Some? {
        AcceptedIsCongruent(m, base, s[..n]);
        if DigitOf(s[n], base).Some? {
          DigitsSnoc(s, n, base);
          NextOfResidue(m, base, Value(s[..n], base), s[n]);
        }
      }
      assert AllDigits(s, base) ==> DigitOf(s[n], base).Some?;
    }
  }

  lemma NextOfResidue(m: nat, base: nat, v: nat, c: char)
    requires m > 0 && DigitOf(c, base).Some?
    ensures NextValue(m, base, v % m, c).Some? <==> v % m <= (v * base + DigitOf(c, base).value) % m
  {
    StepIsCongruent(v, base, DigitOf(c, base).value, m);
  }

  // ----- main results

  /** Exactly which texts are accepted, overflowing ones included. */
  lemma AcceptedExactly(text: string, w: nat, signed: bool)
    requires w >= 8
    ensures ParseInt(text, w, signed).Some? <==>
            && Match(text).Some?
            && var l := Match(text).value;
            && AllDigits(l.digits, l.base) && ResiduesGrow(Pow2(w), l.base, l.digits)
            && (l.negative ==> signed)
            && (signed ==> Value(l.digits, l.base) % Pow2(w) <= Pow2(w - 1) - if l.negative then 0 else 1)
  {
    if Match(text).Some? {
      var l := Match(text).value;
      AcceptedIffResiduesGrow(Pow2(w), l.base, l.digits);
      if Accumulate(Pow2(w), l.base, l.digits).Some? {
        AcceptedIsCongruent(Pow2(w), l.base, l.digits);
      }
    }
  }

  /** Whatever is accepted consists of digits and is congruent to the literal modulo 2^w. */
  lemma {:induction false} AcceptedIsCongruent(m: nat, base: nat, s: string)
    requires m > 0 && Accumulate(m, base, s).Some?
    ensures AllDigits(s, base) && Accumulate(m, base, s).value == Value(s, base) % m
    decreases |s|
  {
    if s != "" {
      var n := |s| - 1;
      AcceptedIsCongruent(m, base, s[..n]);
      NextIsCongruent(m, base, Value(s[..n], base), s[n]);
      DigitsSnoc(s, n, base);
    }
  }

  lemma DigitsSnoc(s: string, n: nat, base: nat)
    requires |s| == n + 1 && AllDigits(s[..n], base) && DigitOf(s[n], base).Some?
    ensures AllDigits(s, base)
  {
    var front := s[..n];
    assert forall i :: 0 <= i < n ==> front[i] == s[i];
  }

  lemma NextIsCongruent(m: nat, base: nat, v: nat, c: char)
    requires m > 0 && NextValue(m, base, v % m, c).Some?
    ensures DigitOf(c, base).Some?
    ensures NextValue(m, base, v % m, c).value == (v * base + DigitOf(c, base).value) % m
  {
    StepIsCongruent(v, base, DigitOf(c, base).value, m);
  }

  lemma NextIsExact(m: nat, base: nat, v: nat, c: char)
    requires m > 0 && base in {10, 16} && DigitOf(c, base).Some?
    requires v * base + DigitOf(c, base).value < m
    ensures v < m && NextValue(m, base, v, c) == Some(v * base + DigitOf(c, base).value)
  {
    ModUnique(v * base + DigitOf(c, base).value, 0, m, v * base + DigitOf(c, base).value);
  }

  /** A literal whose value fits the unsigned type is accumulated exactly. */
  lemma {:induction false} FittingIsExact(m: nat, base: nat, s: string)
    requires m > 0 && base in {10, 16} && AllDigits(s, base) && Value(s, base) < m
    ensures Accumulate(m, base, s) == Some(Value(s, base))
    decreases |s|
  {
    if s != "" {
      var n := |s| - 1;
      assert AllDigits(s[..n], base);
      var v := Value(s[..n], base);
      NextIsExact(m, base, v, s[n]);
      FittingIsExact(m, base, s[..n]);
    }
  }

  /** For every magnitude a signed type can negate, the result is its negation and neither step of the
      computation leaves the type. */
  lemma NegationIsExact(t: nat, w: nat)
    requires w >= 8 && t <= Pow2(w - 1)
    ensures CheckedNegate(t, w) == 0 - t
    ensures Pow2(w - 1) >= 2
    ensures var r := ToSigned(t - 1, w);
            Representable(r, w, true) && Representable(-r, w, true) && Representable(-r - 1, w, true)
  {
    var m := Pow2(w);
    assert m == 2 * Pow2(w - 1) && Pow2(w - 1) == 2 * Pow2(w - 2);
    if t == 0 {
      ModUnique(-1, -1, m, m - 1);
    } else {
      ModUnique(t - 1, 0, m, t - 1);
    }
  }

  /** Acceptance implies congruence, and the value is then right exactly when the literal is
      representable. */
  lemma AcceptedIntegers(text: string, w: nat, signed: bool)
    requires w >= 8 && ParseInt(text, w, signed).Some?
    ensures Match(text).Some? && AllDigits(Match(text).value.digits, Match(text).value.base)
    ensures var r := ParseInt(text, w, signed).value;
            var lit := Meaning(Match(text).value);
            && Representable(r, w, signed)
            && Congruent(r, lit, Pow2(w))
            && (r == lit <==> Representable(lit, w, signed))
  {
    var u := MagnitudeOf(text, w, signed);
    var l := Match(text).value;
    AcceptedIsCongruent(Pow2(w), l.base, l.digits);
    ResultFromMagnitude(Value(l.digits, l.base), u, l.negative, w, signed, ParseInt(text, w, signed).value);
  }

  /** What the checks have let through. */
  lemma MagnitudeOf(text: string, w: nat, signed: bool) returns (u: nat)
    requires w >= 8 && ParseInt(text, w, signed).Some?
    ensures Match(text).Some?
    ensures var l := Match(text).value;
            && Accumulate(Pow2(w), l.base, l.digits) == Some(u)
            && (signed ==> u <= (if l.negative then Pow2(w - 1) else Pow2(w - 1) - 1))
            && (l.negative ==> signed)
            && ParseInt(text, w, signed).value == (if l.negative then CheckedNegate(u, w) else u)
  {
    u := Accumulate(Modulus(w), Match(text).value.base, Match(text).value.digits).value;
  }

  /** The last step, from an accumulated magnitude u, congruent to v, to the result r. */
  lemma ResultFromMagnitude(v: nat, u: nat, negative: bool, w: nat, signed: bool, r: int)
    requires w >= 8 && u == v % Pow2(w)
    requires signed ==> u <= (if negative then Pow2(w - 1) else Pow2(w - 1) - 1)
    requires negative ==> signed
    requires r == if negative then CheckedNegate(u, w) else u
    ensures var lit := if negative then 0 - v else v;
            && Representable(r, w, signed) && Congruent(r, lit, Pow2(w))
            && (r == lit <==> Representable(lit, w, signed))
  {
    var m := Pow2(w);
    assert m == 2 * Pow2(w - 1);
    var q := v / m;
    assert v == q * m + u;
    AtLeast(q, m);
    if negative {
      NegationIsExact(u, w);
      ModUnique(r - (0 - v), q, m, 0);
    } else {
      assert r - v == (0 - q) * m;
      ModUnique(r - v, 0 - q, m, 0);
    }
  }

  /** Every literal of a representable value is accepted with exactly that value; only an unsigned type
      refuses a minus sign, and then always. */
  lemma RepresentableIntegers(text: string, w: nat, signed: bool)
    requires w >= 8 && Match(text).Some?
    requires AllDigits(Match(text).value.digits, Match(text).value.base)
    requires Representable(Meaning(Match(text).value), w, signed)
    ensures ParseInt(text, w, signed) ==
            if Match(text).value.negative && !signed then None else Some(Meaning(Match(text).value))
  {
    var l := Match(text).value;
    assert Pow2(w) == 2 * Pow2(w - 1);
    if signed || !l.negative {
      FittingIsExact(Pow2(w), l.base, l.digits);
      if l.negative {
        NegationIsExact(Value(l.digits, l.base), w);
      }
    }
  }

  /** The wraparound test misses overflows: 300 is accepted as 44 by an 8-bit unsigned type. */
  lemma OverflowIsNotAlwaysRefused()
    ensures Pow2(8) == 256 && ParseInt("300", 8, false) == Some(44)
  {
    assert Pow2(8) == 256 by {
      assert Pow2(2) == 4 && Pow2(4) == 16 && Pow2(6) == 64;
    }
    var t := "300";
    assert Match(t) == Some(Literal(false, 10, t));
    assert t[..2] == "30" && t[..2][..1] == "3" && t[..2][..1][..0] == "";
    assert Accumulate(256, 10, "") == Some(0);
    assert Accumulate(256, 10, t[..2][..1]) == Some(3);
    assert Accumulate(256, 10, t[..2]) == Some(30);
    assert Accumulate(256, 10, t) == Some(44);
  }
}
