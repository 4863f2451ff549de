/** The texts the parser accepts and what each of them means, said without the parser. */
module FixpointTexts {
  import opened Wrappers
  import opened Bits
  import opened Fixpoint
  import opened FixpointHex
  import opened FixpointParse

  // ----- one side of the dot -----

  ghost predicate Blanks(s: string) {
    forall c :: c in s ==> c as int == 32 || 9 <= c as int <= 13
  }

  /** What C reads as a hexadecimal number: white space, a plus, a 0x, digits, each but the digits
      optional. */
  ghost predicate Spelling(text: string, blanks: string, plus: string, prefix: string, digits: string) {
    && text == blanks + plus + prefix + digits
    && Blanks(blanks) && (plus == "" || plus == "+") && (prefix == "" || prefix == "0x" || prefix == "0X")
    && AllHex(digits) && digits != ""
  }

  /** Nothing at all, or a number with these digits. */
  ghost predicate Numeral(text: string, digits: string) {
    || (text == "" && digits == "")
    || exists blanks, plus, prefix :: Spelling(text, blanks, plus, prefix, digits)
  }

  /** Hexadecimal digits are those of either case, worth their place in the row. */
  lemma DigitsAre(c: char)
    ensures IsHexDigit(c) <==> c in "0123456789abcdef" || c in "ABCDEF"
    ensures IsHexDigit(c) ==>
              "0123456789abcdef"[DigitValue(c)] == c
              || (DigitValue(c) >= 10 && "ABCDEF"[DigitValue(c) - 10] == c)
  {
  }

  lemma {:induction false} SpacesAre(blanks: string, rest: string)
    requires Blanks(blanks) && (rest == "" || !IsSpace(rest[0]))
    ensures Spaces(blanks + rest) == |blanks|
  {
    if blanks != "" {
      assert blanks[0] in blanks && forall c | c in blanks[1..] :: c in blanks;
      assert (blanks + rest)[1..] == blanks[1..] + rest;
      SpacesAre(blanks[1..], rest);
    } else {
      assert blanks + rest == rest;
    }
  }

  /** The scanner reads exactly a spelled number, if a dot or nothing follows. */
  lemma SpellingScans(text: string, blanks: string, plus: string, prefix: string, digits: string, rest: string)
    requires Spelling(text, blanks, plus, prefix, digits) && (rest == "" || rest[0] == '.') && '-' !in rest
    ensures '-' !in text + rest && ScanHex(text + rest) == Match(HexValue(digits) % TWO32, |text|)
  {
    NoDash(text, blanks, plus, prefix, digits);
    FirstAfterSign(prefix, digits, rest);
    NotBlank(plus, prefix + (digits + rest));
    SpacesAre(blanks, plus + (prefix + (digits + rest)));
    PrefixIs(prefix, digits, rest);
    DigitsRun(digits, rest);
    Regroup(blanks, plus, prefix, digits, rest);
    ScanStages(text + rest, blanks, plus, prefix, digits + rest, |digits|);
  }

  lemma NotBlank(plus: string, s: string)
    requires (plus == "" || plus == "+") && s != "" && IsHexDigit(s[0])
    ensures !IsSpace((plus + s)[0])
  {
    assert (plus + s)[0] == if plus == "" then s[0] else '+';
  }

  lemma Regroup(a: string, b: string, c: string, d: string, e: string)
    ensures a + b + c + d + e == a + (b + (c + (d + e)))
    ensures (d + e)[..|d|] == d
  {
  }

  lemma FirstAfterSign(prefix: string, digits: string, rest: string)
    requires (prefix == "" || prefix == "0x" || prefix == "0X") && AllHex(digits) && digits != ""
    ensures var s := prefix + (digits + rest); s != "" && IsHexDigit(s[0])
  {
    assert (prefix + (digits + rest))[0] == if prefix == "" then digits[0] else prefix[0];
  }

  lemma ScanStages(s: string, blanks: string, plus: string, prefix: string, tail: string, digits: nat)
    requires s == blanks + (plus + (prefix + tail)) && '-' !in s && (plus == "" || plus == "+")
    requires prefix + tail != "" && (prefix + tail)[0] != '+'
    requires Spaces(s) == |blanks| && Prefix(prefix + tail) == |prefix| && Digits(tail) == digits > 0
    ensures ScanHex(s) == Match(HexValue(tail[..digits]) % TWO32, |blanks| + |plus| + |prefix| + digits)
  {
    Tails(s, blanks, plus, prefix, tail);
  }

  lemma Tails(s: string, blanks: string, plus: string, prefix: string, tail: string)
    requires s == blanks + (plus + (prefix + tail)) && (plus == "" || plus == "+")
    requires prefix + tail != "" && (prefix + tail)[0] != '+'
    ensures |blanks| < |s| && (s[|blanks|] == '+' <==> plus == "+")
    ensures s[|blanks| + |plus|..] == prefix + tail && s[|blanks| + |plus| + |prefix|..] == tail
  {
    assert s[|blanks|] == (plus + (prefix + tail))[0];
  }

  lemma NoDash(text: string, blanks: string, plus: string, prefix: string, digits: string)
    requires Spelling(text, blanks, plus, prefix, digits)
    ensures '-' !in text && '.' !in text && text[|text| - 1] == digits[|digits| - 1]
  {
    PlainDigits(digits);
    forall c | c in text ensures c != '-' && c != '.' {
      assert c in blanks || c in plus || c in prefix || c in digits;
    }
  }

  lemma PrefixIs(prefix: string, digits: string, rest: string)
    requires (prefix == "" || prefix == "0x" || prefix == "0X") && AllHex(digits) && digits != ""
    requires rest == "" || rest[0] == '.'
    ensures Prefix(prefix + (digits + rest)) == |prefix|
  {
    var s := prefix + (digits + rest);
    if prefix == "" {
      assert s[0] == digits[0];
      assert |s| >= 2 ==> s[1] == if |digits| > 1 then digits[1] else rest[0];
    }
  }

  /** And whatever it reads is a spelled number. */
  lemma ScannedIsSpelled(s: string) returns (digits: string)
    requires '-' !in s && ScanHex(s).Match?
    ensures Numeral(s[..ScanHex(s).count], digits) && digits != "" && AllHex(digits)
    ensures ScanHex(s).value == HexValue(digits) % TWO32 && |digits| <= ScanHex(s).count
  {
    var n := Spaces(s);
    var sign := n + if n < |s| && s[n] == '+' then 1 else 0;
    var start := sign + Prefix(s[sign..]);
    digits := s[start..][..Digits(s[start..])];
    SpacesAreBlank(s);
    var count := ScanHex(s).count;
    assert s[..count] == s[..n] + s[n..sign] + s[sign..start] + digits;
    assert Spelling(s[..count], s[..n], s[n..sign], s[sign..start], digits);
  }

  lemma {:induction false} SpacesAreBlank(s: string)
    ensures Blanks(s[..Spaces(s)])
  {
    if s != "" && IsSpace(s[0]) {
      SpacesAreBlank(s[1..]);
      assert s[..Spaces(s)] == [s[0]] + s[1..][..Spaces(s[1..])];
    }
  }

  // ----- whole texts -----

  /** A whole part, a dot, a fraction and nothing else but a minus sign in front.  Neither part is
      longer than eight characters; the whole part does not start with a space nor, in a text without
      a sign, with a zero if it is longer; the fraction does not end in a zero if it is longer.  The
      value is that of the digits, an empty part counting zero, and it is not minus zero. */
  ghost predicate Spelled(s: string, v: Fix, whole: string, w: string, frac: string, f: string) {
    && s == SignText(v.negative) + (whole + "." + frac)
    && Numeral(whole, w) && Numeral(frac, f) && AllHex(w) && AllHex(f) && |whole| <= 8 && |frac| <= 8
    && (whole != "" ==> whole[0] != ' ')
    && (|whole| > 1 && !v.negative ==> whole[0] != '0')
    && (|frac| > 1 ==> frac[|frac| - 1] != '0')
    && v.whole == HexValue(w) && v.frac == Shifted(HexValue(f), 8 - |frac|) && Canonical(v)
  }

  lemma NumeralScans(text: string, digits: string, rest: string)
    requires Numeral(text, digits) && text != "" && (rest == "" || rest[0] == '.') && '-' !in rest
    ensures AllHex(digits) && 0 < |digits| <= |text| && '-' !in text + rest
    ensures ScanHex(text + rest) == Match(HexValue(digits) % TWO32, |text|)
  {
    var blanks, plus, prefix :| Spelling(text, blanks, plus, prefix, digits);
    SpellingScans(text, blanks, plus, prefix, digits, rest);
  }

  lemma NumeralIsPlain(text: string, digits: string)
    requires Numeral(text, digits)
    ensures '-' !in text && '.' !in text && |digits| <= |text|
  {
    if text != "" {
      var blanks, plus, prefix :| Spelling(text, blanks, plus, prefix, digits);
      NoDash(text, blanks, plus, prefix, digits);
    }
  }

  lemma FractionMeansIt(negative: bool, whole: u32, frac: string, f: string)
    requires Numeral(frac, f) && AllHex(f) && |frac| <= 8 && (|frac| > 1 ==> frac[|frac| - 1] != '0')
    ensures '-' !in frac && Shifted(HexValue(f), 8 - |frac|) < TWO32
    ensures ParseFraction(negative, whole, frac) == Finish(negative, whole, Shifted(HexValue(f), 8 - |frac|))
  {
    NumeralIsPlain(frac, f);
    InAWord(f, |frac|);
    if frac != "" {
      NumeralScans(frac, f, "");
      assert frac + "" == frac;
      var scanned := ScanHex(frac);
      WholeFraction(negative, whole, frac, scanned);
      ShiftedFits(HexValue(f), |frac|);
    } else {
      ZeroShifted(8);
      NothingScanned();
    }
  }

  lemma NothingScanned()
    ensures ScanHex("").NoMatch?
  {
  }

  lemma ShiftedFits(v: nat, count: nat)
    requires count <= 8 && v <= Shifted(v, 8 - count) < TWO32
    ensures ShiftedUp(v % TWO32, count) == Shifted(v, 8 - count)
  {
  }

  /** At most eight digits, moved up by what is left of eight characters, fit in a word. */
  lemma InAWord(digits: string, count: nat)
    requires AllHex(digits) && |digits| <= count <= 8
    ensures HexValue(digits) <= Shifted(HexValue(digits), 8 - count) < TWO32
  {
    FitsAWord(digits, |digits|);
    MoreShifted(HexValue(digits), 8 - count, 8 - |digits|);
  }

  lemma {:induction false} MoreShifted(v: nat, j: nat, k: nat)
    requires j <= k
    ensures Shifted(v, j) <= Shifted(v, k)
    decreases k
  {
    if j < k {
      MoreShifted(v, j, k - 1);
    }
  }

  lemma SpelledParses(s: string, v: Fix, whole: string, w: string, frac: string, f: string)
    requires Spelled(s, v, whole, w, frac, f)
    ensures Parse(s) == Some(v)
  {
    var body := whole + "." + frac;
    InAWord(w, |whole|);
    FractionMeansIt(v.negative, v.whole, frac, f);
    BodyStarts(whole, w, frac, f, body);
    SignSplits(s, v.negative, body);
    SignFacts(s, v.negative, body);
    BodyMeansIt(s, v.negative, v.whole, whole, body, frac);
    assert Parse(s) == ParseBody(v.negative, s, body);
  }

  lemma SignFacts(s: string, negative: bool, body: string)
    requires s == SignText(negative) + body
    ensures |body| <= |s| && (negative ==> s[0] == '-') && (!negative ==> s == body)
  {
  }

  lemma BodyStarts(whole: string, w: string, frac: string, f: string, body: string)
    requires Numeral(whole, w) && Numeral(frac, f) && AllHex(w) && HexValue(w) < TWO32
    requires body == whole + "." + frac
    ensures '-' !in body && body != "" && body[0] != '-' && body[|whole|] == '.' && body[|whole| + 1..] == frac
    ensures if whole == "" then body[0] == '.' && HexValue(w) == 0 else
              body[0] == whole[0] && body[0] != '.' && ScanHex(body) == Match(HexValue(w), |whole|)
  {
    NumeralIsPlain(whole, w);
    NumeralIsPlain(frac, f);
    DotAfter(whole, frac, body);
    if whole != "" {
      NumeralScans(whole, w, "." + frac);
      InAWordAlready(HexValue(w));
    }
  }

  lemma DotAfter(whole: string, frac: string, body: string)
    requires body == whole + "." + frac && '-' !in whole && '.' !in whole && '-' !in frac
    ensures '-' !in body && body != "" && body[0] != '-' && body[|whole|] == '.' && body[|whole| + 1..] == frac
    ensures if whole == "" then body[0] == '.' else body[0] == whole[0] && body[0] != '.'
    ensures body == whole + ("." + frac)
  {
    assert body[0] in body;
    assert whole != "" ==> whole[0] in whole;
  }

  lemma InAWordAlready(n: nat)
    requires n < TWO32
    ensures n % TWO32 == n
  {
  }

  lemma BodyMeansIt(s: string, negative: bool, value: u32, whole: string, body: string, frac: string)
    requires '-' !in body && '-' !in frac && |whole| <= 8 && |body| == |whole| + 1 + |frac|
    requires body[|whole|] == '.' && body[|whole| + 1..] == frac
    requires |body| <= |s| && (negative ==> s[0] == '-') && (!negative ==> s == body)
    requires if whole == "" then value == 0 else
               whole[0] == body[0] && body[0] != ' ' && body[0] != '.' && ScanHex(body) == Match(value, |whole|)
    requires |whole| > 1 && !negative ==> whole[0] != '0'
    ensures ParseBody(negative, s, body) == ParseFraction(negative, value, frac)
  {
  }

  lemma FractionIsSpelled(negative: bool, whole: u32, frac: string) returns (f: string)
    requires '-' !in frac && ParseFraction(negative, whole, frac).Some?
    ensures Numeral(frac, f) && AllHex(f) && |frac| <= 8 && (|frac| > 1 ==> frac[|frac| - 1] != '0')
  {
    f := "";
    if frac != "" {
      f := ScannedIsSpelled(frac);
      assert frac[..|frac|] == frac;
    }
  }

  lemma ParsedIsSpelled(s: string, v: Fix) returns (whole: string, w: string, frac: string, f: string)
    requires Parse(s) == Some(v)
    ensures Spelled(s, v, whole, w, frac, f)
  {
    var negative, body := SignRead(s);
    whole, w, frac := BodyIsSpelled(negative, s, body);
    InAWord(w, |whole|);
    f := FractionIsSpelled(negative, HexValue(w), frac);
    FractionMeansIt(negative, HexValue(w), frac, f);
    FinishedIsSpelled(s, v, negative, body, whole, w, frac, f);
  }

  lemma SignRead(s: string) returns (negative: bool, body: string)
    ensures s == (if negative then "-" else "") + body && Parse(s) == ParseBody(negative, s, body)
    ensures |body| <= |s| && (negative ==> s[0] == '-') && (!negative ==> s == body)
  {
    negative := s != "" && s[0] == '-';
    body := if negative then s[1..] else s;
  }

  lemma FinishedIsSpelled(s: string, v: Fix, negative: bool, body: string,
                          whole: string, w: string, frac: string, f: string)
    requires s == (if negative then "-" else "") + body && body == whole + "." + frac
    requires Numeral(whole, w) && Numeral(frac, f) && AllHex(w) && AllHex(f) && |whole| <= 8 && |frac| <= 8
    requires whole != "" ==> whole[0] != ' '
    requires |whole| > 1 && !negative ==> whole[0] != '0'
    requires |frac| > 1 ==> frac[|frac| - 1] != '0'
    requires HexValue(w) < TWO32 && Shifted(HexValue(f), 8 - |frac|) < TWO32
    requires Finish(negative, HexValue(w), Shifted(HexValue(f), 8 - |frac|)) == Some(v)
    ensures Spelled(s, v, whole, w, frac, f)
  {
  }

  lemma BodyIsSpelled(negative: bool, s: string, body: string) returns (whole: string, w: string, frac: string)
    requires |body| <= |s| && ParseBody(negative, s, body).Some? && (negative ==> s[0] == '-')
    requires !negative ==> s == body
    ensures body == whole + "." + frac && Numeral(whole, w) && AllHex(w) && |w| <= |whole| <= 8 && '-' !in frac
    ensures HexValue(w) < TWO32
    ensures ParseFraction(negative, HexValue(w), frac) == ParseBody(negative, s, body)
    ensures whole != "" ==> whole[0] != ' '
    ensures |whole| > 1 && !negative ==> whole[0] != '0'
  {
    whole, w := "", "";
    if body != "" && body[0] == '.' {
      frac := body[1..];
      assert body == whole + "." + frac;
    } else {
      whole, w, frac := WholeIsSpelled(negative, s, body, ScanHex(body));
    }
  }

  lemma WholeIsSpelled(negative: bool, s: string, body: string, scanned: Scanned)
    returns (whole: string, w: string, frac: string)
    requires '-' !in body && scanned == ScanHex(body) && |body| <= |s|
    requires AfterWhole(negative, s, body, scanned).Some? && (negative ==> s[0] == '-') && (!negative ==> s == body)
    ensures body == whole + "." + frac && Numeral(whole, w) && AllHex(w) && |w| <= |whole| <= 8 && '-' !in frac
    ensures whole != "" && whole[0] == body[0] && HexValue(w) < TWO32
    ensures AfterWhole(negative, s, body, scanned) == ParseFraction(negative, HexValue(w), frac)
    ensures |whole| > 1 && !negative ==> whole[0] != '0'
  {
    w := ScannedIsSpelled(body);
    whole, frac := body[..scanned.count], body[scanned.count + 1..];
    NumeralIsPlain(whole, w);
    DotFollows(negative, s, body, scanned, whole, frac);
    InAWord(w, |whole|);
    InAWordAlready(HexValue(w));
  }

  lemma DotFollows(negative: bool, s: string, body: string, scanned: Scanned, whole: string, frac: string)
    requires '-' !in body && scanned.Match? && 0 < scanned.count <= |body| <= |s|
    requires whole == body[..scanned.count] && '.' !in whole
    requires scanned.count < |body| ==> frac == body[scanned.count + 1..]
    requires AfterWhole(negative, s, body, scanned).Some? && (negative ==> s[0] == '-') && (!negative ==> s == body)
    ensures |whole| <= 8 && body == whole + "." + frac && '-' !in frac
    ensures AfterWhole(negative, s, body, scanned) == ParseFraction(negative, scanned.value, frac)
    ensures |whole| > 1 && !negative ==> whole[0] != '0'
  {
    assert |whole| > 1 ==> body[1] == whole[1];
  }

  /** A text parses to a value exactly when it spells it. */
  lemma ParseIsSpelling(s: string, v: Fix)
    ensures Parse(s) == Some(v) <==> exists whole, w, frac, f :: Spelled(s, v, whole, w, frac, f)
  {
    if Parse(s) == Some(v) {
      var whole, w, frac, f := ParsedIsSpelled(s, v);
    }
    if whole, w, frac, f :| Spelled(s, v, whole, w, frac, f) {
      SpelledParses(s, v, whole, w, frac, f);
    }
  }

  // ----- what follows for texts of digits, and for all others -----

  /** Up to eight digits on each side of the dot, or none, mean what they say: the whole part has no
      leading zero unless a minus is in front, the fraction no trailing one, and it is not minus zero. */
  lemma PlainTextsMean(negative: bool, whole: string, frac: string)
    requires AllHex(whole) && AllHex(frac) && |whole| <= 8 && |frac| <= 8
    requires |whole| > 1 && !negative ==> whole[0] != '0'
    requires |frac| > 1 ==> frac[|frac| - 1] != '0'
    requires negative ==> HexValue(whole) > 0 || HexValue(frac) > 0
    ensures HexValue(whole) < TWO32 && Shifted(HexValue(frac), 8 - |frac|) < TWO32
    ensures Parse((if negative then "-" else "") + (whole + "." + frac))
            == Some(Fix(HexValue(whole), Shifted(HexValue(frac), 8 - |frac|), negative))
  {
    InAWord(whole, |whole|);
    InAWord(frac, |frac|);
    DigitsAreNumerals(whole);
    DigitsAreNumerals(frac);
    var v := Fix(HexValue(whole), Shifted(HexValue(frac), 8 - |frac|), negative);
    var s := SignText(negative) + (whole + "." + frac);
    assert whole != "" ==> IsHexDigit(whole[0]);
    assert Spelled(s, v, whole, whole, frac, frac);
    SpelledParses(s, v, whole, whole, frac, frac);
  }

  lemma DigitsAreNumerals(digits: string)
    requires AllHex(digits)
    ensures Numeral(digits, digits)
  {
    if digits != "" {
      assert "" + "" + "" + digits == digits;
      assert Spelling(digits, "", "", "", digits);
    }
  }

  /** Leading zeros are refused without a sign, but not behind a minus. */
  lemma LeadingZeros(whole: string, frac: string)
    requires AllHex(whole) && AllHex(frac) && 1 < |whole| <= 8 && |frac| <= 8 && whole[0] == '0'
    requires |frac| > 1 ==> frac[|frac| - 1] != '0'
    requires HexValue(whole) > 0
    ensures Parse(whole + "." + frac).None? && Parse("-" + (whole + "." + frac)).Some?
  {
    PlainTextsMean(true, whole, frac);
    var s := whole + "." + frac;
    if Parse(s).Some? {
      var v := Parse(s).value;
      var left, w, right, f := ParsedIsSpelled(s, v);
      PlainDigits(whole);
      PlainDigits(frac);
      NumeralIsPlain(left, w);
      NumeralIsPlain(right, f);
      assert s[0] == whole[0];
      SameDot(s, whole, frac, left, right);
    }
  }

  lemma SameDot(s: string, a: string, b: string, c: string, d: string)
    requires s == a + "." + b == c + "." + d && '.' !in a && '.' !in c
    ensures a == c && b == d
  {
    assert s[|a|] == '.' && s[|c|] == '.';
    assert a == s[..|a|] && c == s[..|c|];
    assert b == s[|a| + 1..];
  }

  /** Any accepted text has one dot, and ends in it or in a digit; so what has no dot, two, or anything
      after the fraction is refused. */
  lemma AcceptedTexts(s: string)
    requires Parse(s).Some?
    ensures exists k :: 0 <= k < |s| && s[k] == '.' && '.' !in s[..k] && '.' !in s[k + 1..]
    ensures s[|s| - 1] == '.' || IsHexDigit(s[|s| - 1])
    ensures Parse(s).value.negative ==> Parse(s).value.whole > 0 || Parse(s).value.frac > 0
  {
    var v := Parse(s).value;
    var whole, w, frac, f := ParsedIsSpelled(s, v);
    NumeralIsPlain(whole, w);
    NumeralIsPlain(frac, f);
    OneDot(s, SignText(v.negative), whole, frac);
    if frac != "" {
      var blanks, plus, prefix :| Spelling(frac, blanks, plus, prefix, f);
      NoDash(frac, blanks, plus, prefix, f);
      assert s[|s| - 1] == frac[|frac| - 1];
    }
  }

  lemma OneDot(s: string, sign: string, whole: string, frac: string)
    requires s == sign + (whole + "." + frac) && (sign == "" || sign == "-") && '.' !in whole && '.' !in frac
    ensures exists k :: 0 <= k < |s| && s[k] == '.' && '.' !in s[..k] && '.' !in s[k + 1..]
    ensures frac == "" ==> s[|s| - 1] == '.'
  {
    var k := |sign| + |whole|;
    assert s[k] == '.' && s[..k] == sign + whole && s[k + 1..] == frac;
  }
}
