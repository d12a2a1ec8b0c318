/** Every spelling of a number that the C conversions accept is read as that number. */
module NumberLaws {
  import opened Options
  import opened Numbers

  /** White space in the C locale. */
  const SPACES := " \t\n\U{0b}\U{0c}\r"

  /** The same digit, in small or in capital letters. */
  predicate SameDigit(c: char, d: char) {
    c == d || ('a' <= d <= 'f' && c as int == d as int - 'a' as int + 'A' as int)
  }

  /** A spelling of the printed digits in any mixture of small and capital letters. */
  predicate Spells(digits: string, v: nat, base: nat)
    requires base == 10 || base == 16
  {
    && |digits| == |Print(v, base)|
    && forall i :: 0 <= i < |digits| ==> SameDigit(digits[i], Print(v, base)[i])
  }

  /** What follows does not go on with the number. */
  predicate EndsNumber(rest: string, base: nat) {
    rest != "" ==>
      && !('0' <= rest[0] <= '9')
      && (base == 16 ==> !('a' <= rest[0] <= 'f') && !('A' <= rest[0] <= 'F') && rest[0] != 'x' && rest[0] != 'X')
  }

  lemma {:induction false} DigitsByValue(s: string, t: string, base: nat, acc: nat)
    requires |s| == |t| && forall i :: 0 <= i < |s| ==> DigitValue(s[i]) == DigitValue(t[i])
    ensures ReadDigits(s, base, acc) == ReadDigits(t, base, acc)
    decreases |s|
  {
    if s != "" && IsDigit(s[0], base) {
      DigitsByValue(s[1..], t[1..], base, acc * base + DigitValue(s[0]));
    }
  }

  lemma {:induction false} DigitsThenRest(digits: string, rest: string, base: nat, acc: nat)
    requires forall i :: 0 <= i < |digits| ==> IsDigit(digits[i], base)
    requires rest != "" ==> !IsDigit(rest[0], base)
    ensures ReadDigits(digits + rest, base, acc) == ReadDigits(digits, base, acc)
    decreases |digits|
  {
    if digits == "" {
      assert digits + rest == rest;
    } else {
      assert (digits + rest)[1..] == digits[1..] + rest;
      DigitsThenRest(digits[1..], rest, base, acc * base + DigitValue(digits[0]));
    }
  }

  lemma {:induction false} SpacesAreSkipped(lead: string, body: string)
    requires forall c :: c in lead ==> c in SPACES
    requires body != "" && body[0] !in SPACES
    ensures SkipSpaces(lead + body) == body
    decreases |lead|
  {
    if lead == "" {
      assert lead + body == body;
    } else {
      assert lead[0] in lead;
      assert (lead + body)[1..] == lead[1..] + body;
      SpacesAreSkipped(lead[1..], body);
    }
  }

  /** Spelled digits have the values of the printed ones. */
  lemma SpelledValues(digits: string, v: nat, base: nat)
    requires (base == 10 || base == 16) && Spells(digits, v, base)
    ensures forall i :: 0 <= i < |digits| ==>
              && DigitValue(digits[i]) == DigitValue(Print(v, base)[i]) && IsDigit(digits[i], base)
              && digits[i] !in SPACES && digits[i] != '-' && digits[i] != '+'
  {
    PrintedGlyphs(v, base);
    var p := Print(v, base);
    hide Print;
    forall i | 0 <= i < |digits|
      ensures DigitValue(digits[i]) == DigitValue(p[i]) && IsDigit(digits[i], base)
      ensures digits[i] !in SPACES && digits[i] != '-' && digits[i] != '+'
    {
      assert p[i] in p;
    }
  }

  lemma DigitsAreRead(digits: string, rest: string, v: nat, base: nat)
    requires base == 10 || base == 16
    requires Spells(digits, v, base) && EndsNumber(rest, base)
    ensures ReadDigits(digits + rest, base, 0) == v
    ensures digits != "" && IsDigit(digits[0], base)
    ensures forall i :: 0 <= i < |digits| ==> digits[i] != 'x' && digits[i] != 'X'
  {
    SpelledValues(digits, v, base);
    DigitsByValue(digits, Print(v, base), base, 0);
    ReadPrinted(v, base);
    assert |digits| > 0;
    hide Print, Spells, ReadDigits;
    DigitsThenRest(digits, rest, base, 0);
  }

  lemma MagnitudeIsRead(prefix: string, digits: string, rest: string, v: nat, base: nat)
    requires base == 10 || base == 16
    requires prefix == "" || (base == 16 && (prefix == "0x" || prefix == "0X"))
    requires Spells(digits, v, base) && EndsNumber(rest, base)
    ensures ReadMagnitude(prefix + digits + rest, base) == Some(v)
  {
    hide ReadDigits, Print, Spells;
    DigitsAreRead(digits, rest, v, base);
    var t := prefix + digits + rest;
    if prefix == "" {
      assert t == digits + rest;
      NoHexPrefix(digits, rest, base);
    } else {
      assert t[2..] == digits + rest;
    }
  }

  lemma NoHexPrefix(digits: string, rest: string, base: nat)
    requires digits != "" && forall i :: 0 <= i < |digits| ==> digits[i] != 'x' && digits[i] != 'X'
    requires EndsNumber(rest, base)
    ensures base == 16 ==> DropHexPrefix(digits + rest) == digits + rest
  {
  }

  /**
   * White space in front, a sign, the prefix of a hexadecimal number, digits in small or capital letters, and
   * anything behind that does not go on with the number: the number spelled is the number read.
   */
  lemma SpelledNumberIsRead(
    lead: string, sign: string, prefix: string, digits: string, rest: string, v: nat, base: nat)
    requires base == 10 || base == 16
    requires (forall c :: c in lead ==> c in SPACES) && sign in ["", "+", "-"]
    requires prefix == "" || (base == 16 && (prefix == "0x" || prefix == "0X"))
    requires Spells(digits, v, base) && EndsNumber(rest, base)
    ensures var text, w: int := lead + (sign + (prefix + digits + rest)), (if sign == "-" then -1 else 1) * v;
            && ReadInteger(text, base) == Some(w)
            && Stoi(text, base) == (if INT_MIN <= w <= INT_MAX then Some(w) else None)
            && (base == 10 ==> Atoi(text) == w)
  {
    SpelledValues(digits, v, base);
    MagnitudeIsRead(prefix, digits, rest, v, base);
    assert |digits| > 0;
    hide ReadMagnitude, Spells, SkipSpaces, ReadInteger, EndsNumber;
    var number := prefix + digits + rest;
    assert number[0] !in SPACES && number[0] != '-' && number[0] != '+';
    SignedIsRead(lead, sign, number, v, base);
  }

  lemma SignedIsRead(lead: string, sign: string, number: string, v: nat, base: nat)
    requires (forall c :: c in lead ==> c in SPACES) && sign in ["", "+", "-"]
    requires number != "" && number[0] !in SPACES && number[0] != '-' && number[0] != '+'
    requires ReadMagnitude(number, base) == Some(v)
    ensures ReadInteger(lead + (sign + number), base) == Some((if sign == "-" then -1 else 1) * v)
  {
    hide ReadMagnitude, SkipSpaces;
    var body := sign + number;
    assert sign == "" ==> body == number;
    assert sign != "" ==> body[0] == sign[0] && body[1..] == number;
    SpacesAreSkipped(lead, body);
  }

  /** A text without a number at its head is refused by the throwing conversion and zero for the other. */
  lemma NoNumberIsRead(lead: string, sign: string, rest: string, base: nat)
    requires base == 10 || base == 16
    requires (forall c :: c in lead ==> c in SPACES) && sign in ["", "+", "-"]
    requires EndsNumber(rest, base) && (rest != "" ==> rest[0] !in SPACES && rest[0] != '+' && rest[0] != '-')
    ensures var text := lead + (sign + rest);
            Stoi(text, base) == None && (base == 10 ==> Atoi(text) == 0)
  {
    var body := sign + rest;
    assert sign == "" ==> body == rest;
    assert sign != "" ==> body[0] == sign[0] && body[1..] == rest;
    if body == "" {
      OnlySpaces(lead);
      assert lead + body == lead;
    } else {
      SpacesAreSkipped(lead, body);
    }
    assert rest != "" ==> !IsDigit(rest[0], base);
  }

  lemma {:induction false} OnlySpaces(lead: string)
    requires forall c :: c in lead ==> c in SPACES
    ensures SkipSpaces(lead) == ""
    decreases |lead|
  {
    if lead != "" {
      assert lead[0] in lead;
      OnlySpaces(lead[1..]);
    }
  }
}
