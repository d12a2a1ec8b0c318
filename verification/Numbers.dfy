/** Reading and printing of integers, as the C library conversions do it. */
module Numbers {
  import opened Options
  import opened Text

  const INT_MIN := -0x8000_0000
  const INT_MAX := 0x7fff_ffff

  predicate IsInt(v: int) {
    INT_MIN <= v <= INT_MAX
  }

  /** What an int variable can hold. */
  type Int = v: int | IsInt(v)

  /** Conversion of a wide integer to the 32-bit int of the target. */
  function WrapToInt(v: int): (r: int)
    ensures IsInt(r) && (IsInt(v) ==> r == v)
    ensures (r - v) % 0x1_0000_0000 == 0
  {
    (v + 0x8000_0000) % 0x1_0000_0000 - 0x8000_0000
  }

  /** The cast of a double to an integer: rounding toward zero. */
  function Truncate(x: real): (r: int)
    ensures if x >= 0.0 then r as real <= x < (r + 1) as real else (r - 1) as real < x <= r as real
  {
    if x >= 0.0 then x.Floor else -((-x).Floor)
  }

  predicate IsSpace(c: char) {
    c in " \t\n\U{0b}\U{0c}\r"
  }

  /** The value of a digit glyph; letters of either case count from ten. */
  function DigitValue(c: char): int {
    if '0' <= c <= '9' then c as int - '0' as int
    else if 'a' <= c <= 'z' then c as int - 'a' as int + 10
    else if 'A' <= c <= 'Z' then c as int - 'A' as int + 10
    else -1
  }

  predicate IsDigit(c: char, base: nat) {
    0 <= DigitValue(c) < base
  }

  function SkipSpaces(s: string): string
    decreases |s|
  {
    if s != "" && IsSpace(s[0]) then SkipSpaces(s[1..]) else s
  }

  /** The number spelled by the leading digits, on top of what was read before. */
  function ReadDigits(s: string, base: nat, acc: nat): nat
    decreases |s|
  {
    if s != "" && IsDigit(s[0], base) then ReadDigits(s[1..], base, acc * base + DigitValue(s[0])) else acc
  }

  /** The optional "0x" of a hexadecimal number; it counts only when a digit follows. */
  function DropHexPrefix(s: string): string {
    if |s| >= 3 && s[0] == '0' && (s[1] == 'x' || s[1] == 'X') && IsDigit(s[2], 16) then s[2..] else s
  }

  function ReadMagnitude(s: string, base: nat): Option<int> {
    var t := if base == 16 then DropHexPrefix(s) else s;
    if t != "" && IsDigit(t[0], base) then Some(ReadDigits(t, base, 0)) else None
  }

  /** White space, an optional sign, digits; None when there is no number (C11 section 7.22.1.4). */
  function ReadInteger(s: string, base: nat): Option<int> {
    var t := SkipSpaces(s);
    if t != "" && t[0] == '-' then
      var m := ReadMagnitude(t[1..], base);
      if m.Some? then Some(-m.value) else None
    else if t != "" && t[0] == '+' then ReadMagnitude(t[1..], base)
    else ReadMagnitude(t, base)
  }

  /** The lenient conversion (C11 section 7.22.1.2): no number reads as zero. */
  function Atoi(s: string): int {
    var r := ReadInteger(s, 10);
    if r.Some? then r.value else 0
  }

  /** The throwing conversion: None stands for an exception, on no number or one that is no int. */
  function Stoi(s: string, base: nat): Option<int> {
    var r := ReadInteger(s, base);
    if r.Some? && IsInt(r.value) then r else None
  }

  /** The digit glyph of a value. */
  function Glyph(d: nat): (c: char)
    requires d < 16
    ensures DigitValue(c) == d && !IsSpace(c) && c != '-' && c != '+' && c != 'x' && c != ' '
  {
    "0123456789abcdef"[d]
  }

  lemma DivMod(v: nat, base: nat)
    requires base == 10 || base == 16
    ensures v / base * base + v % base == v && 0 <= v % base < base
    ensures v >= base ==> 0 < v / base < v
  {
    if base == 10 {
      assert v / 10 * 10 + v % 10 == v;
    } else {
      assert v / 16 * 16 + v % 16 == v;
    }
  }

  function Print(v: nat, base: nat): (s: string)
    requires base == 10 || base == 16
    ensures s != ""
  {
    if v < base then [Glyph(v)] else
      DivMod(v, base);
      Print(v / base, base) + [Glyph(v % base)]
  }

  function Decimal(v: nat): string {
    Print(v, 10)
  }

  function Hexadecimal(v: nat): string {
    "0x" + Print(v, 16)
  }

  /** The text of a decimal, with a sign when negative. */
  function SignedDecimal(v: int): string {
    if v < 0 then "-" + Decimal(-v) else Decimal(v)
  }

  lemma {:induction false} PrintedGlyphs(v: nat, base: nat)
    requires base == 10 || base == 16
    ensures forall c :: c in Print(v, base) ==>
              IsDigit(c, base) && !IsSpace(c) && c != '-' && c != '+' && c != 'x'
  {
    if v >= base {
      DivMod(v, base);
      PrintedGlyphs(v / base, base);
    }
  }

  lemma {:induction false} ReadDigitsSnoc(s: string, c: char, base: nat, acc: nat)
    requires IsDigit(c, base) && forall d :: d in s ==> IsDigit(d, base)
    ensures ReadDigits(s + [c], base, acc) == ReadDigits(s, base, acc) * base + DigitValue(c)
    decreases |s|
  {
    if s == "" {
      assert s + [c] == [c];
    } else {
      assert (s + [c])[1..] == s[1..] + [c];
      assert IsDigit(s[0], base);
      ReadDigitsSnoc(s[1..], c, base, acc * base + DigitValue(s[0]));
    }
  }

  lemma {:induction false} ReadPrinted(v: nat, base: nat)
    requires base == 10 || base == 16
    ensures ReadDigits(Print(v, base), base, 0) == v
  {
    if v >= base {
      DivMod(v, base);
      ReadPrinted(v / base, base);
      PrintedGlyphs(v / base, base);
      ReadDigitsSnoc(Print(v / base, base), Glyph(v % base), base, 0);
    }
  }

  /** Printing and reading back in base ten. */
  lemma DecimalRoundTrip(v: int)
    ensures ReadInteger(SignedDecimal(v), 10) == Some(v)
    ensures Atoi(SignedDecimal(v)) == v
  {
    var m := if v < 0 then -v else v;
    hide ReadDigits, Print;
    PrintedGlyphs(m, 10);
    ReadPrinted(m, 10);
    assert Decimal(m)[0] in Decimal(m);
    assert ("-" + Decimal(m))[1..] == Decimal(m);
  }

  lemma HexRoundTrip(v: nat)
    ensures ReadInteger(Hexadecimal(v), 16) == Some(v)
  {
    var p := Print(v, 16);
    PrintedGlyphs(v, 16);
    ReadPrinted(v, 16);
    assert p[0] in p;
    assert Hexadecimal(v)[2..] == p;
  }

  /** A decimal never looks hexadecimal. */
  lemma DecimalHasNoHexMark(v: int)
    ensures !Contains(SignedDecimal(v), "0x")
    ensures forall w: nat :: Contains(Hexadecimal(w), "0x")
  {
    var s := SignedDecimal(v);
    PrintedGlyphs(if v < 0 then -v else v, 10);
    if Contains(s, "0x") {
      ContainedCharacter(s, "0x", 'x');
    }
    forall w: nat
      ensures Contains(Hexadecimal(w), "0x")
    {
      FindIsLeast(Hexadecimal(w), "0x", 0, 0);
    }
  }
}
