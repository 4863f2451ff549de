/** Hexadecimal text of fixed-point numbers: the printer, which edits a C character buffer in
    place. */
module FixpointHex {
  import opened Bits
  import opened Fixpoint

  const MaxSize: nat := 43

  // ----- hexadecimal digits -----

  function Digit(d: nat): (c: char)
    requires d < 16
    ensures '0' <= c <= '9' || 'a' <= c <= 'f'
  {
    if d < 10 then '0' + d as char else 'a' + (d - 10) as char
  }

  predicate IsHexDigit(c: char) {
    '0' <= c <= '9' || 'a' <= c <= 'f' || 'A' <= c <= 'F'
  }

  function DigitValue(c: char): (d: nat)
    requires IsHexDigit(c)
    ensures d < 16
  {
    if c <= '9' then c as int - '0' as int
    else if c <= 'F' then c as int - 'A' as int + 10
    else c as int - 'a' as int + 10
  }

  lemma DigitInverse(d: nat)
    requires d < 16
    ensures IsHexDigit(Digit(d)) && DigitValue(Digit(d)) == d
    ensures Digit(d) == '0' <==> d == 0
  {
  }

  predicate AllHex(s: string) {
    forall k :: 0 <= k < |s| ==> IsHexDigit(s[k])
  }

  function HexValue(s: string): nat
    requires AllHex(s)
  {
    if s == "" then 0 else HexValue(s[..|s| - 1]) * 16 + DigitValue(s[|s| - 1])
  }

  /** The digits of `%x`. */
  function Hex(n: nat): (s: string)
    ensures AllHex(s)
  {
    if n < 16 then [Digit(n)] else Hex(n / 16) + [Digit(n % 16)]
  }

  /** The digits of `%0kx` for a number of at most k digits. */
  function Padded(n: nat, k: nat): (s: string)
    ensures |s| == k && AllHex(s)
    decreases n, k
  {
    if k == 0 then "" else Padded(n / 16, k - 1) + [Digit(n % 16)]
  }

  /** A value moved up by k hexadecimal places, `value << 4 * k`. */
  function Shifted(value: nat, k: nat): (r: nat)
    ensures r >= value
    decreases value, k
  {
    if k == 0 then value else 16 * Shifted(value, k - 1)
  }

  lemma {:induction false} HexInverse(n: nat)
    ensures HexValue(Hex(n)) == n
    ensures 1 <= |Hex(n)| && (|Hex(n)| > 1 ==> Hex(n)[0] != '0')
  {
    if n < 16 {
      DigitInverse(n);
      assert Hex(n)[..0] == "";
    } else {
      HexInverse(n / 16);
      DigitInverse(n % 16);
      assert Hex(n)[..|Hex(n)| - 1] == Hex(n / 16);
      if n / 16 < 16 {
        DigitInverse(n / 16);
      }
    }
  }

  lemma {:induction false} HexFits(n: nat, k: nat)
    requires k > 0 && n < Shifted(1, k)
    ensures |Hex(n)| <= k
  {
    if n >= 16 {
      HexFits(n / 16, k - 1);
    }
  }

  lemma {:induction false} PaddedInverse(n: nat, k: nat)
    requires n < Shifted(1, k)
    ensures HexValue(Padded(n, k)) == n
  {
    if k > 0 {
      PaddedInverse(n / 16, k - 1);
      DigitInverse(n % 16);
      assert Padded(n, k)[..k - 1] == Padded(n / 16, k - 1);
    }
  }

  lemma {:induction false} ValueBound(s: string)
    requires AllHex(s)
    ensures HexValue(s) < Shifted(1, |s|)
  {
    if s != "" {
      ValueBound(s[..|s| - 1]);
    }
  }

  lemma {:induction false} EightPlaces()
    ensures Shifted(1, 8) == TWO32
  {
    assert Shifted(1, 4) == 0x1_0000;
    assert Shifted(1, 8) == 16 * (16 * (16 * (16 * Shifted(1, 4))));
  }

  lemma EightDigits(n: u32)
    ensures HexValue(Padded(n, 8)) == n && |Hex(n)| <= 8
  {
    EightPlaces();
    PaddedInverse(n, 8);
    HexFits(n, 8);
  }

  // ----- the printed text -----

  function TrimZeros(s: string): (r: string)
    ensures |r| <= |s| && r == s[..|r|]
    ensures r != "" ==> r[|r| - 1] != '0'
  {
    if s != "" && s[|s| - 1] == '0' then TrimZeros(s[..|s| - 1]) else s
  }

  /** Trailing zeros of a fraction carry no value. */
  lemma {:induction false} TrimKeepsFraction(s: string)
    requires AllHex(s)
    ensures HexValue(s) == Shifted(HexValue(TrimZeros(s)), |s| - |TrimZeros(s)|)
  {
    if s != "" && s[|s| - 1] == '0' {
      var front := s[..|s| - 1];
      TrimKeepsFraction(front);
    }
  }

  /** The fraction to print: without trailing zeros, but not empty. */
  function Fraction(digits: string): string {
    if TrimZeros(digits) == "" then "0" else TrimZeros(digits)
  }

  function SignText(negative: bool): string {
    if negative then "-" else ""
  }

  /** The text of a value: the whole part without leading zeros, a dot, the fraction without
      trailing ones. */
  function Format(v: Fix): string {
    if v.whole == 0 && v.frac == 0 then "0.0"
    else SignText(v.negative) + (Hex(v.whole) + "." + Fraction(Padded(v.frac, 8)))
  }

  lemma FractionMeans(digits: string)
    requires AllHex(digits) && digits != ""
    ensures var f := Fraction(digits);
            && AllHex(f) && 1 <= |f| <= |digits|
            && (|f| > 1 ==> f[|f| - 1] != '0')
            && Shifted(HexValue(f), |digits| - |f|) == HexValue(digits)
  {
    TrimKeepsFraction(digits);
    ZeroShifted(|digits|);
    ZeroShifted(|digits| - 1);
  }

  lemma {:induction false} ZeroShifted(k: nat)
    ensures Shifted(0, k) == 0
  {
    if k > 0 {
      ZeroShifted(k - 1);
    }
  }

  /** Digits on both sides of the dot, none redundant. */
  ghost predicate Minimal(s: string, negative: bool, whole: string, frac: string) {
    && s == SignText(negative) + (whole + "." + frac)
    && AllHex(whole) && 1 <= |whole| <= 8 && (|whole| > 1 ==> whole[0] != '0')
    && AllHex(frac) && 1 <= |frac| <= 8 && (|frac| > 1 ==> frac[|frac| - 1] != '0')
  }

  /** The two sides of the dot give the two parts of the value. */
  ghost predicate Means(v: Fix, whole: string, frac: string)
    requires AllHex(whole) && AllHex(frac) && |frac| <= 8
  {
    HexValue(whole) == v.whole && Shifted(HexValue(frac), 8 - |frac|) == v.frac
  }

  ghost predicate IsTextOf(s: string, v: Fix, whole: string, frac: string) {
    Minimal(s, v.negative && Mag(v) != 0, whole, frac) && Means(v, whole, frac)
  }

  /** The text of a value is minimal, means the value, and has room to spare in the buffer. */
  lemma FormatIsMinimal(v: Fix)
    ensures exists whole, frac :: IsTextOf(Format(v), v, whole, frac)
    ensures |Format(v)| <= 18 < MaxSize
  {
    var whole, frac := FormatParts(v);
    MinimalIsShort(Format(v), v.negative && Mag(v) != 0, whole, frac);
  }

  lemma MinimalIsShort(s: string, negative: bool, whole: string, frac: string)
    requires Minimal(s, negative, whole, frac)
    ensures |s| <= 18
  {
  }

  lemma FormatParts(v: Fix) returns (whole: string, frac: string)
    ensures whole == Hex(v.whole) && frac == Fraction(Padded(v.frac, 8))
    ensures IsTextOf(Format(v), v, whole, frac)
  {
    var digits := Padded(v.frac, 8);
    whole, frac := Hex(v.whole), Fraction(digits);
    HexInverse(v.whole);
    EightDigits(v.whole);
    EightDigits(v.frac);
    FractionMeans(digits);
    FormatAsParts(v);
  }

  lemma FormatAsParts(v: Fix)
    ensures Format(v) == SignText(v.negative && Mag(v) != 0) + (Hex(v.whole) + "." + Fraction(Padded(v.frac, 8)))
  {
    if Mag(v) == 0 {
      PaddedZeros(8);
    }
  }

  lemma {:induction false} PaddedZeros(k: nat)
    ensures TrimZeros(Padded(0, k)) == ""
  {
    if k > 0 {
      PaddedZeros(k - 1);
      assert Padded(0, k)[..k - 1] == Padded(0, k - 1);
    }
  }

  // ----- printing into a buffer -----

  /** The text of a C string: what precedes the first NUL. */
  function Text(buffer: seq<char>): (s: string)
    ensures |s| <= |buffer| && s == buffer[..|s|] && '\0' !in s
    ensures |s| < |buffer| ==> buffer[|s|] == '\0'
  {
    if buffer == [] || buffer[0] == '\0' then "" else [buffer[0]] + Text(buffer[1..])
  }

  lemma TextIs(buffer: seq<char>, s: string)
    requires |s| < |buffer| && s == buffer[..|s|] && '\0' !in s && buffer[|s|] == '\0'
    ensures Text(buffer) == s
  {
  }

  /** Write a text and its terminator, as `snprintf` does when they fit; `strncpy` also clears
      the rest of the buffer. */
  method Store(buffer: array<char>, text: string, clear: bool)
    requires |text| < buffer.Length && '\0' !in text
    modifies buffer
    ensures Text(buffer[..]) == text
    ensures clear ==> forall k :: |text| <= k < buffer.Length ==> buffer[k] == '\0'
  {
    forall k | 0 <= k < buffer.Length && (clear || k <= |text|) {
      buffer[k] := if k < |text| then text[k] else '\0';
    }
    assert buffer[..|text|] == text;
    TextIs(buffer[..], text);
  }

  /** Print a value: eight digits of fraction first, then trailing zeros overwritten by NULs, one
      put back if none is left. */
  method FormatHex(buffer: array<char>, v: Fix)
    requires buffer.Length == MaxSize
    modifies buffer
    ensures Text(buffer[..]) == Format(v)
  {
    if v.whole == 0 && v.frac == 0 {
      Store(buffer, "0.0", true);
      return;
    }
    var temp := new char[MaxSize];
    var head, digits := SignText(v.negative) + Hex(v.whole), Padded(v.frac, 8);
    HeadIsPlain(v);
    PlainDigits(digits);
    Store(temp, head + "." + digits, false);
    TrimInPlace(temp, head, digits);
    Associate(SignText(v.negative), Hex(v.whole), ".", Fraction(digits));
    Store(buffer, Text(temp[..]), true);
    ghost var before := buffer[..];
    buffer[MaxSize - 1] := '\0';
    assert buffer[..] == before;
  }

  lemma Associate(a: string, b: string, c: string, d: string)
    ensures a + b + c + d == a + (b + c + d)
  {
  }

  lemma HeadIsPlain(v: Fix)
    ensures var head := SignText(v.negative) + Hex(v.whole);
            |head| <= 9 && '.' !in head && '\0' !in head
  {
    EightDigits(v.whole);
    PlainDigits(Hex(v.whole));
  }

  lemma PlainDigits(digits: string)
    requires AllHex(digits)
    ensures '.' !in digits && '\0' !in digits && '-' !in digits && ' ' !in digits
  {
  }

  /** Trim the fraction of the text in a buffer. */
  method TrimInPlace(temp: array<char>, ghost head: string, ghost digits: string)
    requires Text(temp[..]) == head + "." + digits && '.' !in head && '.' !in digits && digits != ""
    requires |head| + |digits| + 2 < temp.Length
    modifies temp
    ensures Text(temp[..]) == head + "." + Fraction(digits)
  {
    ghost var text := Text(temp[..]);
    var decimal := IndexOf(Text(temp[..]), '.');
    FirstDot(text, head, digits, decimal);
    var end := DropZeros(temp, decimal);
    ghost var cells := temp[..];
    TrimmedText(head, digits, cells, end);
    if temp[end] == '.' {
      temp[end + 1] := '0';
      temp[end + 2] := '\0';
      assert temp[..] == cells[end + 1 := '0'][end + 2 := '\0'];
    }
  }

  /** What is left after trimming reads as the trimmed fraction, once an empty one gets a zero. */
  lemma TrimmedText(head: string, digits: string, cells: seq<char>, end: nat)
    requires var text := head + "." + digits;
             && Trimmed(cells, text, |head|, end) && |text| + 1 < |cells|
             && '\0' !in text && '.' !in digits && (end == |head| || cells[end] != '0')
    ensures cells[end] == '.' <==> end == |head|
    ensures Text(if end == |head| then cells[end + 1 := '0'][end + 2 := '\0'] else cells)
            == head + "." + Fraction(digits)
  {
    var text := head + "." + digits;
    assert text[|head| + 1..] == digits;
    assert cells[end] == cells[..end + 1][end] == text[end];
    if end == |head| {
      assert text[..end + 1] == head + ".";
      TextIs(cells[end + 1 := '0'][end + 2 := '\0'], head + "." + "0");
    } else {
      assert text[end] == digits[end - |head| - 1];
      TextIs(cells, text[..end + 1]);
      TrimStops(text, head, digits, end);
    }
  }

  /** Overwrite trailing zeros after the dot; `end` is the last character left. */
  method DropZeros(temp: array<char>, decimal: nat) returns (end: nat)
    requires decimal + 1 < |Text(temp[..])| < temp.Length
    modifies temp
    ensures Trimmed(temp[..], old(Text(temp[..])), decimal, end)
    ensures end == decimal || temp[end] != '0'
  {
    ghost var text := Text(temp[..]);
    end := |Text(temp[..])| - 1;
    assert text[decimal + 1..] == text[decimal + 1..end + 1];
    while end > decimal && temp[end] == '0'
      invariant Trimmed(temp[..], text, decimal, end)
    {
      TrimStep(temp[..], text, decimal, end);
      ghost var cells := temp[..];
      temp[end] := '\0';
      assert temp[..] == cells[end := '\0'];
      end := end - 1;
    }
  }

  /** The text up to `end` is left, and only zeros were dropped from its fraction. */
  ghost predicate Trimmed(cells: seq<char>, text: string, decimal: nat, end: nat) {
    && decimal <= end < |text| < |cells|
    && cells[..end + 1] == text[..end + 1] && cells[end + 1] == '\0'
    && TrimZeros(text[decimal + 1..]) == TrimZeros(text[decimal + 1..end + 1])
  }

  lemma TrimStep(cells: seq<char>, text: string, decimal: nat, end: nat)
    requires Trimmed(cells, text, decimal, end) && decimal < end && cells[end] == '0'
    ensures Trimmed(cells[end := '\0'], text, decimal, end - 1)
  {
    assert cells[..end + 1][end] == text[end];
    assert text[decimal + 1..end + 1][..end - decimal - 1] == text[decimal + 1..end];
    assert cells[end := '\0'][..end] == cells[..end + 1][..end] == text[..end];
  }

  lemma FirstDot(text: string, head: string, digits: string, decimal: nat)
    requires text == head + "." + digits && '.' !in head && decimal == IndexOf(text, '.')
    ensures decimal == |head| && text[decimal] == '.' && text[decimal + 1..] == digits && text[..decimal] == head
  {
    assert text[|head|] == '.';
  }

  lemma TrimStops(text: string, head: string, digits: string, end: nat)
    requires text == head + "." + digits && |head| < end < |text| && text[end] != '0'
    requires TrimZeros(digits) == TrimZeros(text[|head| + 1..end + 1])
    ensures text[..end + 1] == head + "." + Fraction(digits)
  {
    var kept := text[|head| + 1..end + 1];
    assert kept[|kept| - 1] == text[end];
    assert text[..end + 1] == text[..|head| + 1] + kept;
  }

  /** Where `strchr` finds the character. */
  function IndexOf(s: string, c: char): (i: nat)
    ensures i <= |s| && c !in s[..i]
    ensures i < |s| ==> s[i] == c
  {
    if s == "" || s[0] == c then 0 else 1 + IndexOf(s[1..], c)
  }
}
