/**
 * Spreadsheet cell values and the script's sanitiser `safe_str`, which turns
 * a cell value into text, strips the surrounding whitespace and then drops
 * every non-ASCII character.
 */
module Cells {
  import opened PyText

  /**
   * The value of one worksheet cell as the workbook reader hands it over:
   * no value at all (Python `None`), text, a whole number or a boolean.
   */
  datatype Cell = Empty | Text(s: string) | Integer(n: int) | Boolean(b: bool)

  function DigitChar(d: nat): (c: char)
    requires d < 10
    ensures '0' <= c <= '9'
  {
    ('0' as int + d) as char
  }

  /** Decimal digits of `n`, most significant first, no leading zeros. */
  function Digits(n: nat): (r: string)
    ensures r != []
    ensures forall i :: 0 <= i < |r| ==> '0' <= r[i] <= '9'
    ensures r[0] == '0' ==> n == 0
  {
    if n < 10 then [DigitChar(n)] else Digits(n / 10) + [DigitChar(n % 10)]
  }

  /** Python's `str(n)` for an `int`. */
  function DecimalString(n: int): (r: string)
    ensures r != [] && IsAscii(r) && Trimmed(r)
    ensures r[0] == '0' ==> n == 0
    ensures n < 0 ==> |r| >= 2 && r[0] == '-' && r[1] != '0'
    ensures n >= 0 ==> forall i :: 0 <= i < |r| ==> '0' <= r[i] <= '9'
    ensures n < 0 ==> forall i :: 1 <= i < |r| ==> '0' <= r[i] <= '9'
  {
    if n < 0 then "-" + Digits(-n) else Digits(n)
  }

  /** The number a string of decimal digits denotes: the reading `int(s)` does. */
  function DigitsValue(s: string): int
    decreases |s|
  {
    if s == [] then 0 else 10 * DigitsValue(s[..|s| - 1]) + (s[|s| - 1] as int - '0' as int)
  }

  /** Reading the digits back gives the number. */
  lemma {:induction false} DigitsRoundTrip(n: nat)
    ensures DigitsValue(Digits(n)) == n
  {
    if n >= 10 {
      DigitsRoundTrip(n / 10);
      var r := Digits(n);
      assert r[..|r| - 1] == Digits(n / 10);
    }
  }

  /** `int(str(n)) == n`: the decimal text, read back with its sign, is the number. */
  lemma DecimalStringRoundTrip(n: int)
    ensures var r := DecimalString(n);
      (if r[0] == '-' then -DigitsValue(r[1..]) else DigitsValue(r)) == n
  {
    var r := DecimalString(n);
    if n < 0 {
      DigitsRoundTrip(-n);
      assert r[1..] == Digits(-n);
    } else {
      DigitsRoundTrip(n);
    }
  }

  /** Python's `str(value)`; `str(None)` is the four letters "None". */
  function Str(c: Cell): string {
    match c
    case Empty => "None"
    case Text(s) => s
    case Integer(n) => DecimalString(n)
    case Boolean(b) => if b then "True" else "False"
  }

  /** `safe_str`: strip first, then drop the non-ASCII characters. */
  function SafeStr(c: Cell): (r: string)
    ensures IsAscii(r)
  {
    FilterAscii(Strip(Str(c)))
  }

  /** An absent cell becomes the text "None", the script's sentinel for "no value". */
  lemma SafeStrEmpty()
    ensures SafeStr(Empty) == "None"
  {
    StripTrimmed("None");
    FilterAsciiIdentity("None");
  }

  /**
   * What `safe_str` keeps of a text cell: surrounding whitespace goes, then
   * every non-ASCII character of the remaining middle is dropped.
   */
  lemma SafeStrText(a: string, m: string, b: string)
    requires AllSpace(a) && AllSpace(b) && Trimmed(m)
    ensures SafeStr(Text(a + m + b)) == FilterAscii(m)
  {
    StripUnique(a, m, b);
  }

  /** Trimmed ASCII text passes through unchanged. */
  lemma SafeStrClean(s: string)
    requires IsAscii(s) && Trimmed(s)
    ensures SafeStr(Text(s)) == s
  {
    StripTrimmed(s);
    FilterAsciiIdentity(s);
  }

  lemma SafeStrInteger(n: int)
    ensures SafeStr(Integer(n)) == DecimalString(n)
  {
    StripTrimmed(DecimalString(n));
    FilterAsciiIdentity(DecimalString(n));
  }

  /** A tenant name with an accented letter: "Tênant1" becomes "Tnant1". */
  lemma SafeStrDropsAccent()
    ensures SafeStr(Text("T\U{EA}nant1")) == "Tnant1"
  {
    StripTrimmed("T\U{EA}nant1");
  }

  /**
   * `safe_str` is not idempotent: dropping a non-ASCII character can expose
   * whitespace that the earlier strip did not see.
   */
  lemma SafeStrNotIdempotent(c: char, m: string)
    requires !IsAsciiChar(c) && !IsSpace(c)
    requires m != [] && IsAscii(m) && Trimmed(m)
    ensures SafeStr(Text([c] + " " + m)) == " " + m
    ensures SafeStr(Text(" " + m)) == m
  {
    FirstPassKeepsSpace(c, m);
    SecondPassStrips(m);
  }

  /** The first pass strips nothing (the text starts with `c`), then drops `c`. */
  lemma FirstPassKeepsSpace(c: char, m: string)
    requires !IsAsciiChar(c) && !IsSpace(c)
    requires m != [] && IsAscii(m) && Trimmed(m)
    ensures SafeStr(Text([c] + " " + m)) == " " + m
  {
    var rest := " " + m;
    var raw := [c] + rest;
    assert [c] + " " + m == raw;
    assert raw[0] == c && raw[|raw| - 1] == m[|m| - 1];
    StripTrimmed(raw);
    assert forall i :: 0 <= i < |rest| ==> IsAsciiChar(rest[i]);
    FilterDropsHead(c, rest);
  }

  /** A leading non-ASCII character is dropped and the ASCII rest kept. */
  lemma FilterDropsHead(c: char, rest: string)
    requires !IsAsciiChar(c) && IsAscii(rest)
    ensures FilterAscii([c] + rest) == rest
  {
    FilterAsciiConcat([c], rest);
    FilterAsciiDrops(c);
    FilterAsciiIdentity(rest);
  }

  /** The second pass strips the exposed space. */
  lemma SecondPassStrips(m: string)
    requires m != [] && IsAscii(m) && Trimmed(m)
    ensures SafeStr(Text(" " + m)) == m
  {
    StripUnique(" ", m, "");
    assert " " + m + "" == " " + m;
    FilterAsciiIdentity(m);
  }

  /** Sanitising a sanitised value again only strips it once more. */
  lemma SafeStrTwice(c: Cell)
    ensures SafeStr(Text(SafeStr(c))) == Strip(SafeStr(c))
  {
    StripAscii(SafeStr(c));
    FilterAsciiIdentity(Strip(SafeStr(c)));
  }

  /** From the second application on, sanitising is idempotent. */
  lemma SafeStrStable(c: Cell)
    ensures SafeStr(Text(SafeStr(Text(SafeStr(c))))) == SafeStr(Text(SafeStr(c)))
  {
    var t := Text(SafeStr(c));
    SafeStrTwice(c);
    SafeStrTwice(t);
    StripIdempotent(SafeStr(c));
  }

  /** When the stripped text has no non-ASCII character, sanitising is idempotent. */
  lemma SafeStrIdempotentOnAscii(c: Cell)
    requires IsAscii(Strip(Str(c)))
    ensures SafeStr(Text(SafeStr(c))) == SafeStr(c)
  {
    FilterAsciiIdentity(Strip(Str(c)));
    StripIdempotent(Str(c));
    SafeStrTwice(c);
  }
}
