/** How numbers are written for `integer_parser` of cxxopts, and that what is written is what is read. */
module IntegerLiterals {
  import opened Primitives
  import opened Sequences
  import opened IntegerParser

  const LOWER: string := "0123456789abcdef"
  const UPPER: string := "0123456789ABCDEF"

  // ----- digits

  /** Each digit stands for its place in the alphabet, in either case. */
  lemma DigitTable(d: nat)
    requires d < 16
    ensures DigitOf(LOWER[d], 16) == Some(d) && DigitOf(UPPER[d], 16) == Some(d)
    ensures DigitOf(LOWER[d], 10) == if d < 10 then Some(d) else None
  {
    if d < 10 {
      assert LOWER[d] == UPPER[d] == '0' + d as char;
    } else {
      assert LOWER[d] == 'a' + (d - 10) as char && UPPER[d] == 'A' + (d - 10) as char;
    }
  }

  /** Nothing else is a digit. */
  lemma OnlyTheseAreDigits(c: char, base: nat)
    requires base in {10, 16} && DigitOf(c, base).Some?
    ensures var d := DigitOf(c, base).value;
            d < base && (c == LOWER[d] || c == UPPER[d])
  {
    var d := DigitOf(c, base).value;
    if d < 10 {
      assert c == '0' + d as char == LOWER[d];
    } else {
      assert c == 'a' + (d - 10) as char == LOWER[d] || c == 'A' + (d - 10) as char == UPPER[d];
    }
  }

  // ----- literals

  function Sign(negative: bool): string { if negative then "-" else "" }

  function Prefix(base: nat): string { if base == 16 then "0x" else "" }

  /** The text begins with "0x" and goes on. */
  predicate LooksHex(s: string) { |s| > 2 && s[0] == '0' && s[1] == 'x' }

  /** A sign, a prefix and at least one alphanumeric character; the prefix is never taken for digits. */
  predicate Spells(text: string, l: Literal) {
    && l.base in {10, 16} && l.digits != "" && AllAlnum(l.digits)
    && text == Sign(l.negative) + Prefix(l.base) + l.digits
    && (l.base == 10 ==> !LooksHex(l.digits))
  }

  /** A text is matched exactly when it spells a literal, and as that one. */
  lemma MatchesExactly(text: string, l: Literal)
    ensures Match(text) == Some(l) <==> Spells(text, l)
  {
    if Match(text) == Some(l) {
      MatchedIsSpelt(text, l);
    }
    if Spells(text, l) {
      SpeltIsMatched(text, l);
    }
  }

  lemma MatchedIsSpelt(text: string, l: Literal)
    requires Match(text) == Some(l)
    ensures Spells(text, l)
  {
    var negative := text != "" && text[0] == '-';
    var rest := if negative then text[1..] else text;
    assert text == Sign(negative) + rest;
    if l.base == 16 {
      assert rest == "0x" + rest[2..];
      assert text == Sign(negative) + "0x" + rest[2..];
    } else {
      assert text == Sign(negative) + "" + rest;
      if LooksHex(rest) {
        assert rest[..2] == "0x";
        HexTailIsAlnum(rest);
      }
    }
  }

  lemma SpeltIsMatched(text: string, l: Literal)
    requires Spells(text, l)
    ensures Match(text) == Some(l)
  {
    SignIsRead(text, l);
    var rest := Prefix(l.base) + l.digits;
    if l.base == 16 {
      assert rest[..2] == "0x" && rest[2..] == l.digits;
    } else {
      assert rest == l.digits;
      if |rest| >= 2 {
        TwoCharacters(rest);
      }
    }
  }

  lemma TwoCharacters(s: string)
    requires |s| >= 2
    ensures s[..2] == "0x" <==> s[0] == '0' && s[1] == 'x'
  {
    assert s[..2] == [s[0], s[1]];
  }

  lemma HexTailIsAlnum(rest: string)
    requires |rest| >= 2 && rest[..2] == "0x"
    ensures AllAlnum(rest) <==> AllAlnum(rest[2..])
  {
    assert rest[0] == rest[..2][0] && rest[1] == rest[..2][1];
    forall i | 2 <= i < |rest|
      ensures rest[i] == rest[2..][i - 2]
    {
    }
  }

  lemma SignIsRead(text: string, l: Literal)
    requires text == Sign(l.negative) + Prefix(l.base) + l.digits && l.digits != "" && AllAlnum(l.digits)
    ensures l.negative <==> text[0] == '-'
    ensures (if l.negative then text[1..] else text) == Prefix(l.base) + l.digits
  {
    var body := Prefix(l.base) + l.digits;
    assert body[0] == '0' || body[0] == l.digits[0];
    assert text == Sign(l.negative) + body;
  }

  // ----- writing and reading

  function Digits(v: nat, base: nat): (s: string)
    requires base in {10, 16}
    ensures s != ""
  {
    if v < base then [LOWER[v]] else Digits(v / base, base) + [LOWER[v % base]]
  }

  lemma {:induction false} DigitsMean(v: nat, base: nat)
    requires base in {10, 16}
    ensures AllDigits(Digits(v, base), base) && Value(Digits(v, base), base) == v
    ensures AllAlnum(Digits(v, base)) && (base == 10 ==> !LooksHex(Digits(v, base)))
    decreases v
  {
    if v < base {
      DigitTable(v);
      var s := [LOWER[v]];
      assert s[..|s| - 1] == "" && Value("", base) == 0;
    } else {
      DigitsMean(v / base, base);
      OneMoreDigit(Digits(v / base, base), v / base, v % base, base);
    }
  }

  lemma OneMoreDigit(front: string, v: nat, d: nat, base: nat)
    requires base in {10, 16} && d < base && AllDigits(front, base) && Value(front, base) == v
    requires AllAlnum(front)
    ensures var s := front + [LOWER[d]];
            && AllDigits(s, base) && Value(s, base) == v * base + d && AllAlnum(s)
            && (base == 10 ==> !LooksHex(s))
  {
    var s := front + [LOWER[d]];
    DigitTable(d);
    assert s[..|s| - 1] == front;
    forall i | 0 <= i < |s|
      ensures DigitOf(s[i], base).Some? && IsAlnum(s[i]) && (base == 10 ==> s[i] != 'x')
    {
      assert i < |front| ==> s[i] == front[i];
    }
  }

  /** A number in decimal, or in hexadecimal with its prefix. */
  function Written(v: int, base: nat): string
    requires base in {10, 16}
  {
    Sign(v < 0) + Prefix(base) + Digits(if v < 0 then 0 - v else v, base)
  }

  /** Every representable number, written in either base, is read as itself. */
  lemma WrittenIsRead(v: int, base: nat, w: nat, signed: bool)
    requires base in {10, 16} && w >= 8 && Representable(v, w, signed)
    ensures ParseInt(Written(v, base), w, signed) == Some(v)
  {
    var magnitude: nat := if v < 0 then 0 - v else v;
    DigitsMean(magnitude, base);
    var l := Literal(v < 0, base, Digits(magnitude, base));
    MatchesExactly(Written(v, base), l);
    RepresentableIntegers(Written(v, base), w, signed);
  }

  /** The limits of the types: an unsigned one ends below 2^w, a signed one at half of it. */
  lemma Limits(w: nat, v: int)
    requires w >= 1
    ensures Representable(v, w, false) <==> 0 <= v < Pow2(w)
    ensures Representable(v, w, true) <==> 0 - Pow2(w) <= 2 * v < Pow2(w)
  {
  }
}
