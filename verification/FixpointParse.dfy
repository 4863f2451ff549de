/** Parsing hexadecimal text into fixed-point numbers, against a scanner specified as C's
    `sscanf` with `%x%n`. */
module FixpointParse {
  import opened Wrappers
  import opened Bits
  import opened Fixpoint
  import opened FixpointHex

  datatype Scanned = NoMatch | Match(value: u32, count: nat)

  predicate IsSpace(c: char) {
    c == ' ' || 9 as char <= c <= 13 as char
  }

  /** How many leading characters are white space. */
  function Spaces(s: string): (n: nat)
    ensures n <= |s|
  {
    if s != "" && IsSpace(s[0]) then 1 + Spaces(s[1..]) else 0
  }

  /** How many leading characters are hexadecimal digits. */
  function Digits(s: string): (n: nat)
    ensures n <= |s| && AllHex(s[..n])
    ensures n < |s| ==> !IsHexDigit(s[n])
  {
    if s != "" && IsHexDigit(s[0]) then 1 + Digits(s[1..]) else 0
  }

  function Prefix(s: string): (n: nat)
    ensures n <= |s|
  {
    if |s| >= 2 && s[0] == '0' && (s[1] == 'x' || s[1] == 'X') then 2 else 0
  }

  /** What `sscanf(s, "%x%n", ...)` reads: white space, a sign, a 0x prefix, digits.  A minus sign
      never gets this far. */
  function ScanHex(s: string): (r: Scanned)
    requires '-' !in s
    ensures r.Match? ==> 0 < r.count <= |s|
  {
    var n := Spaces(s);
    var sign := n + if n < |s| && s[n] == '+' then 1 else 0;
    var start := sign + Prefix(s[sign..]);
    var digits := Digits(s[start..]);
    if digits == 0 then NoMatch
    else Match(HexValue(s[start..][..digits]) % TWO32, start + digits)
  }

  /** The parser as a function of the text. */
  function Parse(s: string): (r: Option<Fix>)
    ensures r.Some? ==> Canonical(r.value)
  {
    var negative := s != "" && s[0] == '-';
    ParseBody(negative, s, if negative then s[1..] else s)
  }

  function ParseBody(negative: bool, s: string, body: string): (r: Option<Fix>)
    requires |body| <= |s|
    ensures r.Some? ==> Canonical(r.value)
  {
    if (body != "" && body[0] == ' ') || '-' in body then None
    else if body != "" && body[0] == '.' then ParseFraction(negative, 0, body[1..])
    else AfterWhole(negative, s, body, ScanHex(body))
  }

  function AfterWhole(negative: bool, s: string, body: string, scanned: Scanned): (r: Option<Fix>)
    requires '-' !in body
    requires scanned.Match? ==> 0 < scanned.count <= |body| <= |s|
    ensures r.Some? ==> Canonical(r.value)
  {
    if scanned.NoMatch? || scanned.count > 8 then None
    else if scanned.count > 1 && s[0] == '0' && s[1] != '.' then None
    else if scanned.count < |body| && body[scanned.count] == '.' then
      ParseFraction(negative, scanned.value, body[scanned.count + 1..])
    else None
  }

  function ParseFraction(negative: bool, whole: u32, s: string): (r: Option<Fix>)
    requires '-' !in s
    ensures r.Some? ==> Canonical(r.value)
  {
    AfterFraction(negative, whole, s, ScanHex(s))
  }

  function AfterFraction(negative: bool, whole: u32, s: string, scanned: Scanned): (r: Option<Fix>)
    requires scanned.Match? ==> 0 < scanned.count <= |s|
    ensures r.Some? ==> Canonical(r.value)
  {
    if scanned.NoMatch? then
      if s == "" then Finish(negative, whole, 0) else None
    else if scanned.count > 8 then None
    else if scanned.count > 1 && s[scanned.count - 1] == '0' then None
    else if scanned.count < |s| then None
    else Finish(negative, whole, ShiftedUp(scanned.value, scanned.count))
  }

  /** The digits of a fraction moved to the top of its word. */
  function ShiftedUp(value: nat, count: nat): u32
    requires count <= 8
  {
    Shifted(value, 8 - count) % TWO32
  }

  function Finish(negative: bool, whole: u32, frac: u32): (r: Option<Fix>)
    ensures r.Some? ==> Canonical(r.value)
  {
    if whole == 0 && frac == 0 && negative then None else Some(Fix(whole, frac, negative))
  }

  /** Parse into a number, which a failure may leave half written. */
  method ParseHex(val: Number, s: string) returns (ok: bool)
    modifies val
    ensures ok == Parse(s).Some?
    ensures ok ==> val.Get() == Parse(s).value
  {
    var str := s;
    val.negative := false;
    if str != "" && str[0] == '-' {
      val.negative := true;
      str := str[1..];
      if str != "" && str[0] == '-' {
        return false;
      }
    }
    if str != "" && str[0] == ' ' {
      return false;
    }
    if '-' in str {
      return false;
    }
    if str == "" || str[0] != '.' {
      var whole := ScanHex(str);
      if whole.NoMatch? {
        return false;
      }
      if whole.count > 8 {
        return false;
      }
      if whole.count > 1 && s[0] == '0' && s[1] != '.' {
        return false;
      }
      val.whole := whole.value;
      str := str[whole.count..];
    } else {
      val.whole := 0;
    }
    val.frac := 0;
    if str == "" || str[0] != '.' {
      return false;
    }
    ok := ParseFracInto(val, str[1..]);
    if ok && val.whole == 0 && val.frac == 0 && val.negative {
      return false;
    }
  }

  method ParseFracInto(val: Number, text: string) returns (ok: bool)
    requires '-' !in text && val.frac == 0
    modifies val`frac
    ensures ok && Finish(val.negative, val.whole, val.frac).Some?
            <==> ParseFraction(val.negative, val.whole, text).Some?
    ensures ok && Finish(val.negative, val.whole, val.frac).Some? ==>
              ParseFraction(val.negative, val.whole, text).value == val.Get()
  {
    var str := text;
    var frac := ScanHex(str);
    if str != "" && frac.Match? {
      if frac.count > 8 {
        return false;
      }
      val.frac := ShiftedUp(frac.value, frac.count);
      if frac.count > 1 && str[frac.count - 1] == '0' {
        return false;
      }
      str := str[frac.count..];
    }
    ok := str == "";
  }

  // ----- the scanner on plain digits -----

  lemma {:induction false} DigitsRun(digits: string, rest: string)
    requires AllHex(digits) && (rest == "" || !IsHexDigit(rest[0]))
    ensures Digits(digits + rest) == |digits|
  {
    if digits != "" {
      assert (digits + rest)[1..] == digits[1..] + rest;
      DigitsRun(digits[1..], rest);
    }
  }

  /** Nothing is skipped in front of plain digits. */
  lemma NothingToSkip(s: string)
    requires s != "" && IsHexDigit(s[0]) && (|s| == 1 || s[1] == '.' || IsHexDigit(s[1]))
    ensures Spaces(s) == 0 && s[0] != '+' && Prefix(s) == 0 && s[0..] == s
  {
  }

  /** Digits with no prefix among them are read whole. */
  lemma PlainScan(s: string, digits: string)
    requires AllHex(digits) && digits != "" && '-' !in s && |digits| <= |s| && s[..|digits|] == digits
    requires |s| == |digits| || s[|digits|] == '.'
    ensures ScanHex(s) == Match(HexValue(digits) % TWO32, |digits|)
  {
    assert s[0] == digits[0] && (|digits| > 1 ==> s[1] == digits[1]);
    NothingToSkip(s);
    DigitsRun(digits, s[|digits|..]);
    assert s == digits + s[|digits|..];
  }

  // ----- round trip -----

  lemma FractionParses(negative: bool, whole: u32, frac: string)
    requires AllHex(frac) && 1 <= |frac| <= 8 && (|frac| > 1 ==> frac[|frac| - 1] != '0') && '-' !in frac
    ensures ParseFraction(negative, whole, frac)
            == Finish(negative, whole, ShiftedUp(HexValue(frac) % TWO32, |frac|))
  {
    PlainScan(frac, frac);
    WholeFraction(negative, whole, frac, ScanHex(frac));
  }

  lemma WholeFraction(negative: bool, whole: u32, frac: string, scanned: Scanned)
    requires scanned.Match? && scanned.count == |frac| && 1 <= |frac| <= 8
    requires |frac| > 1 ==> frac[|frac| - 1] != '0'
    ensures AfterFraction(negative, whole, frac, scanned)
            == Finish(negative, whole, ShiftedUp(scanned.value, scanned.count))
  {
  }

  /** A minimal text parses to what its digits mean, unless that is minus zero. */
  lemma MinimalParses(s: string, negative: bool, whole: string, frac: string)
    requires Minimal(s, negative, whole, frac)
    ensures Parse(s) == Finish(negative, HexValue(whole) % TWO32, ShiftedUp(HexValue(frac) % TWO32, |frac|))
  {
    var body := whole + "." + frac;
    TidyBody(s, negative, whole, frac);
    FractionParses(negative, HexValue(whole) % TWO32, frac);
    MinimalWhole(s, negative, body, whole, frac, HexValue(whole) % TWO32);
  }

  lemma MinimalWhole(s: string, negative: bool, body: string, whole: string, frac: string, value: u32)
    requires Minimal(s, negative, whole, frac) && body == whole + "." + frac && '-' !in body
    ensures IsHexDigit(body[0])
    ensures AfterWhole(negative, s, body, Match(value, |whole|)) == ParseFraction(negative, value, frac)
  {
    assert body[|whole| + 1..] == frac && body[|whole|] == '.';
    assert body[0] == whole[0];
  }

  lemma BodyParses(s: string, negative: bool, body: string)
    requires s == SignText(negative) + body && body != "" && IsHexDigit(body[0]) && '-' !in body
    ensures Parse(s) == AfterWhole(negative, s, body, ScanHex(body))
  {
    SignSplits(s, negative, body);
  }

  lemma SignSplits(s: string, negative: bool, body: string)
    requires s == SignText(negative) + body && body != "" && body[0] != '-'
    ensures negative <==> s[0] == '-'
    ensures body == if negative then s[1..] else s
  {
  }

  /** Printing and parsing gives every canonical value back. */
  lemma RoundTrip(v: Fix)
    requires Canonical(v)
    ensures Parse(Format(v)) == Some(v)
  {
    var whole, frac := FormatParts(v);
    PartsParse(Format(v), v, whole, frac);
  }

  lemma PartsParse(s: string, v: Fix, whole: string, frac: string)
    requires Canonical(v) && Minimal(s, v.negative, whole, frac)
    requires Means(v, whole, frac)
    ensures Parse(s) == Some(v)
  {
    MinimalParses(s, v.negative, whole, frac);
    FinishIs(v, HexValue(whole), HexValue(frac), |frac|);
  }

  lemma FinishIs(v: Fix, whole: nat, frac: nat, count: nat)
    requires Canonical(v) && count <= 8 && whole == v.whole && Shifted(frac, 8 - count) == v.frac
    ensures Finish(v.negative, whole % TWO32, ShiftedUp(frac % TWO32, count)) == Some(v)
  {
  }

  /** The canonical values are exactly what the parser can return. */
  lemma ParserReachesCanonical(v: Fix)
    ensures Canonical(v) <==> exists s :: Parse(s) == Some(v)
  {
    if Canonical(v) {
      RoundTrip(v);
    }
  }

  // ----- which accepted texts are the printed ones -----

  /** The digits the printer uses. */
  predicate Lower(s: string) {
    forall k :: 0 <= k < |s| ==> '0' <= s[k] <= '9' || 'a' <= s[k] <= 'f'
  }

  /** Lower-case digits on both sides of the dot and nothing else but a minus sign in front, and
      no leading zero. */
  ghost predicate Tidied(s: string, negative: bool, whole: string, frac: string) {
    && s == SignText(negative) + (whole + "." + frac)
    && Lower(whole) && Lower(frac) && whole != "" && frac != ""
    && (|whole| > 1 ==> whole[0] != '0')
  }

  ghost predicate Tidy(s: string) {
    exists negative, whole, frac :: Tidied(s, negative, whole, frac)
  }

  /** An accepted text is the printed form of its value exactly when it is tidy. */
  lemma AcceptedIsPrintedWhenTidy(s: string)
    requires Parse(s).Some?
    ensures Format(Parse(s).value) == s <==> Tidy(s)
  {
    var v := Parse(s).value;
    if Format(v) == s {
      FormatIsTidy(v);
    }
    if Tidy(s) {
      var negative, whole, frac :| Tidied(s, negative, whole, frac);
      TidyIsPrinted(s, negative, whole, frac, v);
    }
  }

  /** Nothing after the dot is accepted too, though the printer never leaves that out. */
  lemma NoFractionIsAccepted(whole: string)
    requires AllHex(whole) && 1 <= |whole| <= 8 && (|whole| > 1 ==> whole[0] != '0')
    ensures Parse(whole + ".") == Some(Fix(HexValue(whole) % TWO32, 0, false))
    ensures forall v :: Format(v) != whole + "."
  {
    var s := whole + ".";
    PlainDigits(whole);
    PlainScan(s, whole);
    assert s[0] == whole[0] && SignText(false) + s == s;
    BodyParses(s, false, s);
    DotThenNothing(s, whole, HexValue(whole) % TWO32);
    NeverPrinted(s);
  }

  lemma NeverPrinted(s: string)
    requires s != "" && s[|s| - 1] == '.'
    ensures forall v :: Format(v) != s
  {
    forall v ensures Format(v) != s {
      var w, f := FormatParts(v);
      assert Format(v)[|Format(v)| - 1] == f[|f| - 1];
    }
  }

  lemma DotThenNothing(s: string, whole: string, value: u32)
    requires s == whole + "." && 1 <= |whole| <= 8 && '-' !in s && (|whole| > 1 ==> whole[0] != '0')
    ensures AfterWhole(false, s, s, Match(value, |whole|)) == Some(Fix(value, 0, false))
  {
    assert s[|whole| + 1..] == "" && s[0] == whole[0];
  }

  lemma AcceptedButNotPrinted()
    ensures Parse("8.").Some? && Format(Parse("8.").value) != "8."
  {
    NoFractionIsAccepted("8");
    assert "8" + "." == "8.";
  }

  lemma FormatIsTidy(v: Fix)
    ensures Tidy(Format(v))
  {
    var whole, frac := FormatParts(v);
    assert whole == Hex(v.whole) && frac == Fraction(Padded(v.frac, 8));
    HexIsLower(v.whole);
    PaddedIsLower(v.frac, 8);
    assert Tidied(Format(v), v.negative && Mag(v) != 0, whole, frac);
  }

  lemma {:induction false} HexIsLower(n: nat)
    ensures Lower(Hex(n))
  {
    if n >= 16 {
      HexIsLower(n / 16);
    }
  }

  lemma {:induction false} PaddedIsLower(n: nat, k: nat)
    ensures Lower(Padded(n, k))
  {
    if k > 0 {
      PaddedIsLower(n / 16, k - 1);
    }
  }

  lemma TidyIsMinimal(s: string, negative: bool, whole: string, frac: string)
    requires Tidied(s, negative, whole, frac) && Parse(s).Some?
    ensures Minimal(s, negative, whole, frac)
  {
    var body := whole + "." + frac;
    TidyBody(s, negative, whole, frac);
    WholeIsShort(negative, s, body, whole, frac, HexValue(whole) % TWO32);
    FractionIsShort(negative, HexValue(whole) % TWO32, frac);
  }

  lemma TidyBody(s: string, negative: bool, whole: string, frac: string)
    requires s == SignText(negative) + (whole + "." + frac) && AllHex(whole) && AllHex(frac) && whole != ""
    ensures var body := whole + "." + frac;
            '-' !in body && Parse(s) == AfterWhole(negative, s, body, Match(HexValue(whole) % TWO32, |whole|))
    ensures '-' !in frac
  {
    var body := whole + "." + frac;
    BodyIsPlain(body, whole, frac);
    BodyScans(body, whole, frac);
    BodyParses(s, negative, body);
  }

  lemma BodyIsPlain(body: string, whole: string, frac: string)
    requires body == whole + "." + frac && AllHex(whole) && AllHex(frac) && whole != ""
    ensures '-' !in body && '-' !in frac && IsHexDigit(body[0])
  {
    PlainDigits(whole);
    PlainDigits(frac);
    assert body[0] == whole[0];
  }

  lemma BodyScans(body: string, whole: string, frac: string)
    requires body == whole + "." + frac && AllHex(whole) && whole != "" && '-' !in body
    ensures ScanHex(body) == Match(HexValue(whole) % TWO32, |whole|)
  {
    PlainScan(body, whole);
  }

  lemma WholeIsShort(negative: bool, s: string, body: string, whole: string, frac: string, value: u32)
    requires body == whole + "." + frac && whole != "" && '-' !in body && |body| <= |s|
    ensures AfterWhole(negative, s, body, Match(value, |whole|)).Some? ==>
              |whole| <= 8 && ParseFraction(negative, value, frac).Some?
  {
    assert body[|whole| + 1..] == frac && body[|whole|] == '.';
  }

  lemma FractionIsShort(negative: bool, whole: u32, frac: string)
    requires AllHex(frac) && frac != "" && '-' !in frac
    ensures ParseFraction(negative, whole, frac).Some? ==>
              |frac| <= 8 && (|frac| > 1 ==> frac[|frac| - 1] != '0')
  {
    PlainScan(frac, frac);
  }

  lemma TidyIsPrinted(s: string, negative: bool, whole: string, frac: string, v: Fix)
    requires Tidied(s, negative, whole, frac) && Parse(s) == Some(v)
    ensures Format(v) == s
  {
    TidyIsMinimal(s, negative, whole, frac);
    MinimalParses(s, negative, whole, frac);
    TidyMeans(negative, whole, frac, v);
    MinimalIsPrinted(s, negative, whole, frac, v);
  }

  lemma TidyMeans(negative: bool, whole: string, frac: string, v: Fix)
    requires AllHex(whole) && AllHex(frac) && |whole| <= 8 && |frac| <= 8
    requires Finish(negative, HexValue(whole) % TWO32, ShiftedUp(HexValue(frac) % TWO32, |frac|)) == Some(v)
    ensures Means(v, whole, frac) && v.negative == negative && Canonical(v)
  {
    FitsAWord(whole, |whole|);
    FitsAWord(frac, |frac|);
    FinishGives(negative, HexValue(whole), HexValue(frac), |frac|, v);
  }

  lemma FinishGives(negative: bool, whole: nat, frac: nat, count: nat, v: Fix)
    requires count <= 8 && whole < TWO32 && Shifted(frac, 8 - count) < TWO32
    requires Finish(negative, whole % TWO32, ShiftedUp(frac % TWO32, count)) == Some(v)
    ensures v == Fix(whole, Shifted(frac, 8 - count), negative) && Canonical(v)
  {
  }

  lemma MinimalIsPrinted(s: string, negative: bool, whole: string, frac: string, v: Fix)
    requires Minimal(s, negative, whole, frac) && Lower(whole) && Lower(frac)
    requires Means(v, whole, frac) && v.negative == negative && Canonical(v)
    ensures Format(v) == s
  {
    WholeIsPrinted(whole);
    FractionIsPadded(frac, 8 - |frac|, HexValue(frac), v.frac);
    FractionIsPrinted(frac, 8 - |frac|);
    PiecesArePrinted(s, whole, frac, v);
  }

  lemma PiecesArePrinted(s: string, whole: string, frac: string, v: Fix)
    requires s == SignText(v.negative) + (whole + "." + frac) && Canonical(v)
    requires Hex(v.whole) == whole && Fraction(Padded(v.frac, 8)) == frac
    ensures Format(v) == s
  {
    FormatAsParts(v);
  }

  lemma FitsAWord(digits: string, count: nat)
    requires AllHex(digits) && count == |digits| <= 8
    ensures HexValue(digits) <= Shifted(HexValue(digits), 8 - count) < TWO32
  {
    ValueBound(digits);
    ShiftBound(HexValue(digits), count, 8 - count);
    EightPlaces();
  }

  lemma {:induction false} ShiftBound(value: nat, count: nat, k: nat)
    requires value < Shifted(1, count)
    ensures Shifted(value, k) < Shifted(1, count + k)
  {
    if k > 0 {
      ShiftBound(value, count, k - 1);
    }
  }

  lemma {:induction false} WholeIsPrinted(digits: string)
    requires AllHex(digits) && Lower(digits) && digits != "" && (|digits| > 1 ==> digits[0] != '0')
    ensures Hex(HexValue(digits)) == digits
    ensures digits[0] != '0' ==> HexValue(digits) > 0
  {
    var front, last := digits[..|digits| - 1], digits[|digits| - 1];
    LowerIsPrinted(last);
    assert digits == front + [last];
    HexGrows(HexValue(front), DigitValue(last));
    if front != "" {
      WholeIsPrinted(front);
    }
  }

  lemma HexGrows(v: nat, d: nat)
    requires d < 16
    ensures Hex(v * 16 + d) == if v == 0 then [Digit(d)] else Hex(v) + [Digit(d)]
  {
  }

  lemma PaddedGrows(v: nat, d: nat, k: nat)
    requires d < 16
    ensures Padded(v * 16 + d, k + 1) == Padded(v, k) + [Digit(d)]
  {
  }

  lemma LowerIsPrinted(c: char)
    requires '0' <= c <= '9' || 'a' <= c <= 'f'
    ensures Digit(DigitValue(c)) == c
    ensures c != '0' ==> DigitValue(c) > 0
  {
  }

  lemma {:induction false} PaddedOf(digits: string)
    requires AllHex(digits) && Lower(digits)
    ensures Padded(HexValue(digits), |digits|) == digits
  {
    if digits != "" {
      var front, last := digits[..|digits| - 1], digits[|digits| - 1];
      PaddedOf(front);
      LowerIsPrinted(last);
      PaddedGrows(HexValue(front), DigitValue(last), |front|);
      assert digits == front + [last];
    }
  }

  lemma FractionIsPadded(digits: string, k: nat, value: nat, shifted: nat)
    requires AllHex(digits) && Lower(digits)
    requires value == HexValue(digits) && shifted == Shifted(value, k)
    ensures Padded(shifted, |digits| + k) == digits + Zeros(k)
  {
    PaddedOf(digits);
    ShiftedPads(value, |digits|, k);
  }

  lemma FractionIsPrinted(digits: string, k: nat)
    requires digits != "" && (|digits| > 1 ==> digits[|digits| - 1] != '0')
    ensures Fraction(digits + Zeros(k)) == digits
  {
    TrimOfTidy(digits);
    TrimOfPadded(digits, k);
  }

  function Zeros(k: nat): string {
    if k == 0 then "" else Zeros(k - 1) + "0"
  }

  lemma TrimOfTidy(digits: string)
    requires digits != "" && (|digits| > 1 ==> digits[|digits| - 1] != '0')
    ensures Fraction(digits) == digits
  {
    if digits[|digits| - 1] == '0' {
      assert digits == "0" && TrimZeros(digits[..0]) == "";
    }
  }

  lemma {:induction false} ShiftedPads(v: nat, n: nat, k: nat)
    ensures Padded(Shifted(v, k), n + k) == Padded(v, n) + Zeros(k)
    decreases k
  {
    if k > 0 {
      ShiftedPads(v, n, k - 1);
      PaddedGrows(Shifted(v, k - 1), 0, n + k - 1);
      assert Padded(v, n) + Zeros(k) == Padded(v, n) + Zeros(k - 1) + "0";
    }
  }

  lemma {:induction false} TrimOfPadded(s: string, k: nat)
    ensures TrimZeros(s + Zeros(k)) == TrimZeros(s)
    decreases k
  {
    if k == 0 {
      assert s + "" == s;
    } else {
      TrimOfPadded(s, k - 1);
      TrimOne(s + Zeros(k - 1));
      assert s + Zeros(k) == s + Zeros(k - 1) + "0";
    }
  }

  lemma TrimOne(s: string)
    ensures TrimZeros(s + "0") == TrimZeros(s)
  {
    assert (s + "0")[..|s|] == s;
  }
}
