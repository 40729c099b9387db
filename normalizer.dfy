/**
 * The response normalizer: three field parsers (amount, date, status) and one
 * mapping per payment method from the collector's raw result to the canonical
 * `NormalizedVerifierResponse`. The clock (`now`, milliseconds) and JavaScript's
 * generic `new Date(text)` parse (`parse`) are parameters.
 */
module Normalizer {
  import opened Optional
  import opened JsText
  import opened CollectorResults
  import opened NormalizedTypes

  // ---------------------------------------------------------------- amounts

  /** The argument of `parseAmount`: `string | number | undefined`. */
  datatype AmountInput = AmountNumber(n: real) | AmountText(text: string) | AmountAbsent

  /** An optional string field handed to `parseAmount`. */
  function TextOrAbsent(o: Option<string>): AmountInput {
    if o.Some? then AmountText(o.value) else AmountAbsent
  }

  /** `s.replace(/[c]/g, '')`. */
  function RemoveChar(s: string, c: char): (r: string)
    ensures c !in r
    ensures |r| <= |s|
  {
    if s == [] then []
    else if s[0] == c then RemoveChar(s[1..], c)
    else [s[0]] + RemoveChar(s[1..], c)
  }

  /** Equality after ASCII case folding, what the `i` flag does for a literal pattern. */
  predicate EqualsIgnoringCase(a: string, b: string) {
    |a| == |b| && (a == [] || (LowerChar(a[0]) == LowerChar(b[0]) && EqualsIgnoringCase(a[1..], b[1..])))
  }

  /** Character-wise folding agrees with comparing the two lowered strings. */
  lemma {:induction false} EqualsIgnoringCaseIff(a: string, b: string)
    ensures EqualsIgnoringCase(a, b) <==> ToLower(a) == ToLower(b)
  {
    if |a| == |b| && a != [] {
      EqualsIgnoringCaseIff(a[1..], b[1..]);
      assert ToLower(a) == [LowerChar(a[0])] + ToLower(a[1..]);
      assert ToLower(b) == [LowerChar(b[0])] + ToLower(b[1..]);
      if ToLower(a) == ToLower(b) {
        assert ToLower(a)[1..] == ToLower(a[1..]);
        assert ToLower(b)[1..] == ToLower(b[1..]);
      }
    }
  }

  /**
   * `s.replace(/tok/gi, '')`: scanning left to right, every occurrence of `tok`
   * (ignoring case) is deleted and the scan resumes after it.
   */
  function RemoveIgnoringCase(s: string, tok: string): (r: string)
    requires |tok| > 0
    ensures |r| <= |s|
    decreases |s|
  {
    if |s| < |tok| then s
    else if EqualsIgnoringCase(s[..|tok|], tok) then RemoveIgnoringCase(s[|tok|..], tok)
    else [s[0]] + RemoveIgnoringCase(s[1..], tok)
  }

  /** The text `parseFloat` sees: commas, `birr` and `etb` removed, then trimmed. */
  function CleanAmountText(s: string): (r: string)
    ensures |r| <= |s|
  {
    Trim(RemoveIgnoringCase(RemoveIgnoringCase(RemoveChar(s, ','), "birr"), "etb"))
  }

  /** The longest prefix of `s` made of decimal digits. */
  function LeadingDigits(s: string): (d: string)
    ensures |d| <= |s| && d == s[..|d|] && AllDigits(d)
    ensures |d| < |s| ==> !IsDigit(s[|d|])
  {
    if s != [] && IsDigit(s[0]) then [s[0]] + LeadingDigits(s[1..]) else []
  }

  function DigitValue(c: char): nat
    requires IsDigit(c)
  {
    c as int - '0' as int
  }

  /** The number a string of decimal digits denotes. */
  function DigitsValue(s: string): nat
    requires AllDigits(s)
  {
    if s == [] then 0 else DigitsValue(s[..|s| - 1]) * 10 + DigitValue(s[|s| - 1])
  }

  function Pow10(n: nat): (p: nat)
    ensures p >= 1
  {
    if n == 0 then 1 else 10 * Pow10(n - 1)
  }

  /** The value of `whole.frac` for two digit strings. */
  function DecimalValue(whole: string, frac: string): real
    requires AllDigits(whole) && AllDigits(frac)
  {
    DigitsValue(whole) as real + DigitsValue(frac) as real / Pow10(|frac|) as real
  }

  /**
   * `parseFloat` on text that has no leading whitespace: an optional sign, then
   * digits with an optional `.` and fraction, or `.` and at least one digit.
   * None stands for NaN.
   */
  function ParseFloatPrefix(t: string): Option<real> {
    var negative := t != [] && t[0] == '-';
    var body := if t != [] && (t[0] == '-' || t[0] == '+') then t[1..] else t;
    var u := ParseUnsigned(body);
    if u.None? then None else Some(if negative then -u.value else u.value)
  }

  /** `parseFloat` after the sign: digits with an optional `.` and fraction, or `.` and at least one digit. */
  function ParseUnsigned(body: string): Option<real> {
    var whole := LeadingDigits(body);
    var rest := body[|whole|..];
    var frac := if rest != [] && rest[0] == '.' then LeadingDigits(rest[1..]) else [];
    if whole == [] && frac == [] then None else Some(DecimalValue(whole, frac))
  }

  /** `parseAmount`: a number passes through; text is cleaned and parsed; NaN and absence give 0. */
  function ParseAmount(v: AmountInput): (r: real)
    ensures v.AmountNumber? ==> r == v.n
    ensures v.AmountAbsent? || v == AmountText("") ==> r == 0.0
  {
    match v
    case AmountNumber(n) => n
    case AmountAbsent => 0.0
    case AmountText(s) =>
      if s == "" then 0.0
      else ParseFloatPrefix(CleanAmountText(s)).GetOr(0.0)
  }

  lemma {:induction false} RemoveCharAppend(a: string, b: string, c: char)
    ensures RemoveChar(a + b, c) == RemoveChar(a, c) + RemoveChar(b, c)
  {
    if a != [] {
      assert (a + b)[1..] == a[1..] + b;
      RemoveCharAppend(a[1..], b, c);
    } else {
      assert a + b == b;
    }
  }

  lemma {:induction false} RemoveCharAbsent(s: string, c: char)
    requires c !in s
    ensures RemoveChar(s, c) == s
  {
    if s != [] {
      RemoveCharAbsent(s[1..], c);
    }
  }

  /** The removed character alone leaves nothing. */
  lemma RemoveCharOne(c: char)
    ensures RemoveChar([c], c) == []
  {
    assert [c][1..] == [];
  }

  /** Thousands separators never change the parsed amount, wherever they stand. */
  lemma ParseAmountIgnoresCommas(a: string, b: string)
    ensures ParseAmount(AmountText(a + "," + b)) == ParseAmount(AmountText(a + b))
  {
    RemoveCharAppend(a, "," + b, ',');
    RemoveCharAppend(",", b, ',');
    RemoveCharAppend(a, b, ',');
    assert RemoveChar(",", ',') == [];
    assert a + "," + b == a + ("," + b);
    assert RemoveChar(a + "," + b, ',') == RemoveChar(a + b, ',');
    if a + b == "" {
      assert RemoveChar("", ',') == "";
      assert RemoveIgnoringCase("", "birr") == "";
      assert RemoveIgnoringCase("", "etb") == "";
      assert CleanAmountText(a + "," + b) == "";
      assert ParseFloatPrefix("") == None;
    }
  }

  /** Where `tok` cannot start at the first character, that character is kept. */
  lemma RemoveIgnoringCaseKeeps(s: string, tok: string)
    requires 0 < |tok| <= |s| && LowerChar(s[0]) != LowerChar(tok[0])
    ensures RemoveIgnoringCase(s, tok) == [s[0]] + RemoveIgnoringCase(s[1..], tok)
  {
    assert !EqualsIgnoringCase(s[..|tok|], tok);
  }

  /** No character of `a` can start `tok`. */
  predicate NoStartOf(a: string, tok: string)
    requires |tok| > 0
  {
    a == [] || (LowerChar(a[0]) != LowerChar(tok[0]) && NoStartOf(a[1..], tok))
  }

  lemma {:induction false} NoStartOfAll(a: string, tok: string)
    requires |tok| > 0
    requires forall i :: 0 <= i < |a| ==> LowerChar(a[i]) != LowerChar(tok[0])
    ensures NoStartOf(a, tok)
  {
    if a != [] {
      assert forall i :: 0 <= i < |a[1..]| ==> a[1..][i] == a[i + 1];
      NoStartOfAll(a[1..], tok);
    }
  }

  /** A prefix in which `tok` cannot start is kept as it is. */
  lemma {:induction false} RemoveIgnoringCaseKeepsPrefix(a: string, b: string, tok: string)
    requires |tok| > 0 && NoStartOf(a, tok)
    ensures RemoveIgnoringCase(a + b, tok) == a + RemoveIgnoringCase(b, tok)
    decreases |a|
  {
    if a == [] {
      assert a + b == b;
    } else if |a + b| < |tok| {
      assert RemoveIgnoringCase(b, tok) == b;
    } else {
      var s := a + b;
      assert s[0] == a[0] && s[1..] == a[1..] + b;
      RemoveIgnoringCaseKeeps(s, tok);
      RemoveIgnoringCaseKeepsPrefix(a[1..], b, tok);
      var rb := RemoveIgnoringCase(b, tok);
      assert [a[0]] + (a[1..] + rb) == a + rb by {
        assert a == [a[0]] + a[1..];
      }
    }
  }

  /** An occurrence of `tok` in any letter case at the front is deleted, and the scan resumes after it. */
  lemma RemoveIgnoringCaseDrops(u: string, b: string, tok: string)
    requires |tok| > 0 && EqualsIgnoringCase(u, tok)
    ensures RemoveIgnoringCase(u + b, tok) == RemoveIgnoringCase(b, tok)
  {
    assert (u + b)[..|tok|] == u && (u + b)[|tok|..] == b;
  }

  /** After a prefix in which `tok` cannot start, an occurrence of `tok` in any letter case is deleted. */
  lemma RemoveIgnoringCaseDeletes(a: string, u: string, b: string, tok: string)
    requires |tok| > 0 && NoStartOf(a, tok) && EqualsIgnoringCase(u, tok)
    ensures RemoveIgnoringCase(a + u + b, tok) == a + RemoveIgnoringCase(b, tok)
  {
    assert a + u + b == a + (u + b);
    RemoveIgnoringCaseKeepsPrefix(a, u + b, tok);
    RemoveIgnoringCaseDrops(u, b, tok);
  }

  /** `tok` occurs in `s` at index `i`, in any letter case. */
  ghost predicate MatchesAt(s: string, tok: string, i: int) {
    0 <= i && i + |tok| <= |s| && EqualsIgnoringCase(s[i..i + |tok|], tok)
  }

  /** `tok` occurs in `s` at no index, in any letter case. */
  ghost predicate OccursNowhere(s: string, tok: string) {
    forall i :: !MatchesAt(s, tok, i)
  }

  /** Text in which `tok` occurs nowhere, in any letter case, is left as it is. */
  lemma {:induction false} RemoveIgnoringCaseAbsent(s: string, tok: string)
    requires |tok| > 0 && OccursNowhere(s, tok)
    ensures RemoveIgnoringCase(s, tok) == s
    decreases |s|
  {
    if |s| >= |tok| {
      assert !MatchesAt(s, tok, 0) && s[0..|tok|] == s[..|tok|];
      assert OccursNowhere(s[1..], tok) by {
        forall i ensures !MatchesAt(s[1..], tok, i) {
          if 0 <= i && i + |tok| <= |s[1..]| {
            assert !MatchesAt(s, tok, i + 1);
            assert s[1..][i..i + |tok|] == s[i + 1..i + 1 + |tok|];
          }
        }
      }
      RemoveIgnoringCaseAbsent(s[1..], tok);
    }
  }

  lemma {:induction false} LeadingDigitsOf(d: string, rest: string)
    requires AllDigits(d)
    requires rest == [] || !IsDigit(rest[0])
    ensures LeadingDigits(d + rest) == d
    decreases |d|
  {
    if d == [] {
      assert d + rest == rest;
    } else {
      assert (d + rest)[1..] == d[1..] + rest;
      LeadingDigitsOf(d[1..], rest);
    }
  }

  /** The value an optional sign gives a magnitude. */
  function Signed(sign: string, magnitude: real): real {
    if sign == "-" then -magnitude else magnitude
  }

  /**
   * `parseFloat` reads an optional sign, digits, a dot and a fraction, and
   * ignores whatever follows once no further digit comes.
   */
  lemma ParseFloatPrefixReads(sign: string, whole: string, frac: string, rest: string)
    requires sign == "" || sign == "-" || sign == "+"
    requires whole != [] && AllDigits(whole) && AllDigits(frac)
    requires rest == [] || !IsDigit(rest[0])
    ensures ParseFloatPrefix(sign + (whole + ("." + (frac + rest)))) == Some(Signed(sign, DecimalValue(whole, frac)))
  {
    var body := whole + ("." + (frac + rest));
    assert IsDigit(body[0]);
    ParseFloatPrefixDigitLed(sign, body);
    LeadingDigitsOf(whole, "." + (frac + rest));
    assert body[|whole|..] == "." + (frac + rest);
    assert ("." + (frac + rest))[1..] == frac + rest;
    LeadingDigitsOf(frac, rest);
  }

  /** Text led by a digit after its optional sign: the sign applies to the value of the digits and fraction. */
  lemma ParseFloatPrefixDigitLed(sign: string, body: string)
    requires sign == "" || sign == "-" || sign == "+"
    requires body != [] && IsDigit(body[0])
    ensures var whole := LeadingDigits(body);
            var rest := body[|whole|..];
            var frac := if rest != [] && rest[0] == '.' then LeadingDigits(rest[1..]) else [];
            ParseFloatPrefix(sign + body) == Some(Signed(sign, DecimalValue(whole, frac)))
  {
    ParseFloatPrefixSigned(sign, body);
    ParseUnsignedDigitLed(body);
  }

  /** The sign in front of a text led by a digit or a dot applies to what the unsigned reading gives. */
  lemma ParseFloatPrefixSigned(sign: string, body: string)
    requires sign == "" || sign == "-" || sign == "+"
    requires body != [] && (IsDigit(body[0]) || body[0] == '.')
    ensures ParseFloatPrefix(sign + body) == if ParseUnsigned(body).None? then None else Some(Signed(sign, ParseUnsigned(body).value))
  {
    SignSplit(sign, body);
  }

  /** A digit-led text is read as its leading digits and the digits after a `.` that follows them. */
  lemma ParseUnsignedDigitLed(body: string)
    requires body != [] && IsDigit(body[0])
    ensures var whole := LeadingDigits(body);
            var rest := body[|whole|..];
            var frac := if rest != [] && rest[0] == '.' then LeadingDigits(rest[1..]) else [];
            ParseUnsigned(body) == Some(DecimalValue(whole, frac))
  {
    assert LeadingDigits(body) != [];
  }

  /** Helper for ParseFloatPrefixSigned: a sign in front of a digit or a dot is read as a sign and nothing more. */
  lemma SignSplit(sign: string, body: string)
    requires sign == "" || sign == "-" || sign == "+"
    requires body != [] && (IsDigit(body[0]) || body[0] == '.')
    ensures var t := sign + body; (if t != [] && (t[0] == '-' || t[0] == '+') then t[1..] else t) == body
    ensures var t := sign + body; (t != [] && t[0] == '-') <==> sign == "-"
  {
    var t := sign + body;
    if sign == "" {
      assert t == body;
    } else {
      assert t[0] == sign[0] && t[1..] == body;
    }
  }

  /** A text led by a dot is read as the fraction digits after it, with no whole part. */
  lemma ParseUnsignedDotLed(frac: string, rest: string)
    requires frac != [] && AllDigits(frac)
    requires rest == [] || !IsDigit(rest[0])
    ensures ParseUnsigned("." + (frac + rest)) == Some(DecimalValue([], frac))
  {
    var body := "." + (frac + rest);
    assert LeadingDigits(body) == [];
    assert body[1..] == frac + rest;
    LeadingDigitsOf(frac, rest);
  }

  /** A number written without whole digits (`.5`, `-.75`), then any text not starting with a digit, is read as its signed fraction. */
  lemma ParseFloatPrefixReadsDotLed(sign: string, frac: string, rest: string)
    requires sign == "" || sign == "-" || sign == "+"
    requires frac != [] && AllDigits(frac)
    requires rest == [] || !IsDigit(rest[0])
    ensures ParseFloatPrefix(sign + ("." + (frac + rest))) == Some(Signed(sign, DecimalValue([], frac)))
  {
    ParseFloatPrefixSigned(sign, "." + (frac + rest));
    ParseUnsignedDotLed(frac, rest);
  }

  /** Without a fraction: an optional sign and digits, then anything that is neither a digit nor a dot. */
  lemma ParseFloatPrefixReadsWhole(sign: string, whole: string, rest: string)
    requires sign == "" || sign == "-" || sign == "+"
    requires whole != [] && AllDigits(whole)
    requires rest == [] || (!IsDigit(rest[0]) && rest[0] != '.')
    ensures ParseFloatPrefix(sign + (whole + rest)) == Some(Signed(sign, DigitsValue(whole) as real))
  {
    var body := whole + rest;
    assert IsDigit(body[0]);
    ParseFloatPrefixDigitLed(sign, body);
    LeadingDigitsOf(whole, rest);
    assert body[|whole|..] == rest;
    DecimalValueWhole(whole);
  }

  /** Helper for ParseFloatPrefixReadsWhole: a number without fraction digits has the value of its digits. */
  lemma DecimalValueWhole(whole: string)
    requires AllDigits(whole)
    ensures DecimalValue(whole, []) == DigitsValue(whole) as real
  {
    assert DigitsValue([]) == 0 && Pow10(0) == 1;
  }

  /** A unit word: `birr` or `etb` in any letter case. */
  predicate UnitWord(w: string) {
    EqualsIgnoringCase(w, "birr") || EqualsIgnoringCase(w, "etb")
  }

  /** What may follow the number: nothing, or a unit word with or without one space before it. */
  predicate UnitSuffix(u: string) {
    u == "" || UnitWord(u) || (|u| > 0 && u[0] == ' ' && UnitWord(u[1..]))
  }

  lemma {:induction false} EqualsIgnoringCaseAt(a: string, b: string)
    requires EqualsIgnoringCase(a, b)
    ensures forall i :: 0 <= i < |a| ==> LowerChar(a[i]) == LowerChar(b[i])
  {
    if a != [] {
      EqualsIgnoringCaseAt(a[1..], b[1..]);
      assert forall i :: 0 < i < |a| ==> a[i] == a[1..][i - 1] && b[i] == b[1..][i - 1];
    }
  }

  /** A unit suffix holds no comma. */
  lemma UnitSuffixNoComma(u: string)
    requires UnitSuffix(u)
    ensures ',' !in u
  {
    if u != "" {
      var w := if UnitWord(u) then u else u[1..];
      var tok := if EqualsIgnoringCase(w, "birr") then "birr" else "etb";
      EqualsIgnoringCaseAt(w, tok);
      assert forall i :: 0 <= i < |tok| ==> 'a' <= tok[i] <= 'z';
      assert ',' !in w;
      if !UnitWord(u) {
        assert u == [' '] + w;
      }
    }
  }

  /** The two unit passes leave only the space in front of the unit word. */
  lemma UnitRemoved(u: string)
    requires UnitSuffix(u)
    ensures RemoveIgnoringCase(RemoveIgnoringCase(u, "birr"), "etb") == (if u != "" && u[0] == ' ' then " " else "")
  {
    assert RemoveIgnoringCase("", "birr") == "" && RemoveIgnoringCase("", "etb") == "";
    assert RemoveIgnoringCase(" ", "etb") == " ";
    if u == "" {
    } else if UnitWord(u) {
      assert u + "" == u;
      assert LowerChar(u[0]) == 'b' || LowerChar(u[0]) == 'e' by {
        EqualsIgnoringCaseAt(u, if EqualsIgnoringCase(u, "birr") then "birr" else "etb");
      }
      if EqualsIgnoringCase(u, "birr") {
        RemoveIgnoringCaseDrops(u, "", "birr");
      } else {
        assert RemoveIgnoringCase(u, "birr") == u;
        RemoveIgnoringCaseDrops(u, "", "etb");
      }
    } else {
      var w := u[1..];
      assert u == " " + w;
      assert NoStartOf(" ", "birr") && NoStartOf(" ", "etb");
      RemoveIgnoringCaseKeepsPrefix(" ", w, "birr");
      assert w + "" == w;
      if EqualsIgnoringCase(w, "birr") {
        RemoveIgnoringCaseDrops(w, "", "birr");
      } else {
        assert RemoveIgnoringCase(w, "birr") == w;
        RemoveIgnoringCaseKeepsPrefix(" ", w, "etb");
        RemoveIgnoringCaseDrops(w, "", "etb");
      }
    }
  }

  /** Only digits, dots and signs. */
  predicate NumericText(s: string) {
    forall i :: 0 <= i < |s| ==> s[i] == '.' || s[i] == '-' || s[i] == '+' || IsDigit(s[i])
  }

  lemma NumericDecimal(sign: string, whole: string, frac: string)
    requires sign == "" || sign == "-" || sign == "+"
    requires AllDigits(whole) && AllDigits(frac)
    ensures NumericText(sign + whole + "." + frac)
  {
    var num := sign + whole + "." + frac;
    var k := |sign| + |whole|;
    forall i | 0 <= i < |num| ensures num[i] == '.' || num[i] == '-' || num[i] == '+' || IsDigit(num[i]) {
      if i < |sign| {
        assert num[i] == sign[i];
      } else if i < k {
        assert num[i] == whole[i - |sign|];
      } else if i > k {
        assert num[i] == frac[i - k - 1];
      }
    }
  }

  /** Trimming leaves a numeric text that starts and ends with a digit, dot or sign, minus one trailing space. */
  lemma TrimNumeric(num: string, tail: string)
    requires num != [] && NumericText(num)
    requires tail == "" || tail == " "
    ensures Trim(num + tail) == num
  {
    var t := num + tail;
    assert !IsWhitespace(t[0]);
    assert TrimStart(t) == t;
    if tail == " " {
      assert t[..|t| - 1] == num;
      assert !IsWhitespace(num[|num| - 1]);
      assert TrimEnd(num) == num;
    } else {
      assert t == num;
      assert !IsWhitespace(num[|num| - 1]);
    }
  }

  /** Cleaning keeps a text of digits, dots and signs and drops a unit word after it, in any letter case. */
  lemma CleanNumeric(num: string, unit: string)
    requires num != [] && NumericText(num)
    requires UnitSuffix(unit)
    ensures CleanAmountText(num + unit) == num
  {
    assert forall i :: 0 <= i < |num| ==> LowerChar(num[i]) == num[i];
    var s := num + unit;
    assert ',' !in s by {
      UnitSuffixNoComma(unit);
      forall i | 0 <= i < |s| ensures s[i] != ',' {
        if i < |num| { assert s[i] == num[i]; } else { assert s[i] == unit[i - |num|]; }
      }
    }
    RemoveCharAbsent(s, ',');
    NoStartOfAll(num, "birr");
    NoStartOfAll(num, "etb");
    RemoveIgnoringCaseKeepsPrefix(num, unit, "birr");
    var mid := RemoveIgnoringCase(unit, "birr");
    RemoveIgnoringCaseKeepsPrefix(num, mid, "etb");
    UnitRemoved(unit);
    TrimNumeric(num, if unit != "" && unit[0] == ' ' then " " else "");
  }

  /** Helper for ParseAmountDecimal: regrouping a concatenation of four texts to the right. */
  lemma RegroupRight(a: string, b: string, c: string, d: string)
    ensures a + b + c + d == a + (b + (c + (d + [])))
  {
    assert d + [] == d;
  }

  /**
   * An amount written `whole.frac` with an optional sign, bare or followed by a
   * unit word in any letter case, parses to its signed decimal value.
   */
  lemma ParseAmountDecimal(sign: string, whole: string, frac: string, unit: string)
    requires sign == "" || sign == "-" || sign == "+"
    requires whole != [] && AllDigits(whole) && AllDigits(frac)
    requires UnitSuffix(unit)
    ensures ParseAmount(AmountText(sign + whole + "." + frac + unit)) == Signed(sign, DecimalValue(whole, frac))
  {
    var num := sign + whole + "." + frac;
    NumericDecimal(sign, whole, frac);
    CleanNumeric(num, unit);
    RegroupRight(sign, whole, ".", frac);
    ParseAmountReads(num + unit, sign, whole, frac, []);
  }

  /** A whole number with an optional sign, bare or followed by a unit word in any letter case (`600 birr`, `600ETB`), parses to its value. */
  lemma ParseAmountWhole(sign: string, d: string, unit: string)
    requires sign == "" || sign == "-" || sign == "+"
    requires d != [] && AllDigits(d)
    requires UnitSuffix(unit)
    ensures ParseAmount(AmountText(sign + d + unit)) == Signed(sign, DigitsValue(d) as real)
  {
    var num := sign + d;
    NumericWhole(sign, d);
    CleanNumeric(num, unit);
    AppendEmpty(sign, d);
    ParseFloatPrefixReadsWhole(sign, d, []);
    ParseAmountOfClean(num + unit, num);
  }

  /** An amount written `.frac` with an optional sign (`.50 ETB`), bare or followed by a unit word, parses to its signed fraction. */
  lemma ParseAmountDotLed(sign: string, frac: string, unit: string)
    requires sign == "" || sign == "-" || sign == "+"
    requires frac != [] && AllDigits(frac)
    requires UnitSuffix(unit)
    ensures ParseAmount(AmountText(sign + "." + frac + unit)) == Signed(sign, DecimalValue([], frac))
  {
    var num := sign + "." + frac;
    NumericDecimal(sign, [], frac);
    assert sign + [] == sign;
    CleanNumeric(num, unit);
    DotRegroup(sign, frac);
    ParseFloatPrefixReadsDotLed(sign, frac, []);
    ParseAmountOfClean(num + unit, num);
  }

  /** Helper for ParseAmountDotLed: regrouping a dot-led number with an empty tail. */
  lemma DotRegroup(sign: string, frac: string)
    ensures sign + "." + frac == sign + ("." + (frac + []))
  {
    assert frac + [] == frac;
  }

  /** An optionally signed run of digits consists of digits and signs only. */
  lemma NumericWhole(sign: string, d: string)
    requires sign == "" || sign == "-" || sign == "+"
    requires AllDigits(d)
    ensures NumericText(sign + d)
  {
    var num := sign + d;
    forall i | 0 <= i < |num| ensures num[i] == '.' || num[i] == '-' || num[i] == '+' || IsDigit(num[i]) {
      if i >= |sign| { assert num[i] == d[i - |sign|]; }
    }
  }

  /** Helper for ParseAmountWhole: regrouping with an empty tail. */
  lemma AppendEmpty(a: string, b: string)
    ensures a + b == a + (b + [])
  {
    assert b + [] == b;
  }

  /** A non-empty amount text is parsed from what cleaning leaves, and NaN gives 0. */
  lemma ParseAmountOfClean(s: string, c: string)
    requires s != "" && CleanAmountText(s) == c
    ensures ParseAmount(AmountText(s)) == ParseFloatPrefix(c).GetOr(0.0)
  {
  }

  /** Whatever the cleaned text is, a number at its start is read and the text after it is ignored. */
  lemma ParseAmountReads(s: string, sign: string, whole: string, frac: string, rest: string)
    requires sign == "" || sign == "-" || sign == "+"
    requires whole != [] && AllDigits(whole) && AllDigits(frac)
    requires rest == [] || !IsDigit(rest[0])
    requires s != "" && CleanAmountText(s) == sign + (whole + ("." + (frac + rest)))
    ensures ParseAmount(AmountText(s)) == Signed(sign, DecimalValue(whole, frac))
  {
    ParseFloatPrefixReads(sign, whole, frac, rest);
    ParseAmountOfClean(s, sign + (whole + ("." + (frac + rest))));
  }

  /** The digit strings of the worked example below and their value. */
  lemma SixHundredValue()
    ensures AllDigits("600") && AllDigits("00") && DecimalValue("600", "00") == 600.0
  {
    assert AllDigits("600") by {
      forall i | 0 <= i < 3 ensures IsDigit("600"[i]) { }
    }
    assert AllDigits("00") by {
      forall i | 0 <= i < 2 ensures IsDigit("00"[i]) { }
    }
    assert DigitsValue("6") == 6;
    assert DigitsValue("60") == 60;
    assert DigitsValue("600") == 600;
    assert DigitsValue("0") == 0;
    assert DigitsValue("00") == 0;
  }

  /** ` Birr` is a unit suffix. */
  lemma BirrSuffix()
    ensures UnitSuffix(" Birr")
  {
    assert " Birr"[1..] == "Birr" && EqualsIgnoringCase("Birr", "birr");
  }

  /** A Telebirr settled amount: the text `600.00 Birr` parses to 600. */
  lemma ParseAmountTelebirrExample()
    ensures ParseAmount(AmountText("600" + "." + "00" + " Birr")) == 600.0
  {
    SixHundredValue();
    BirrSuffix();
    assert "" + "600" == "600";
    ParseAmountDecimal("", "600", "00", " Birr");
  }

  /** The digit strings of the second worked example and their value. */
  lemma TwelveFiftyValue()
    ensures AllDigits("1250") && AllDigits("50") && DecimalValue("1250", "50") == 1250.5
  {
    assert AllDigits("1250") by {
      forall i | 0 <= i < 4 ensures IsDigit("1250"[i]) { }
    }
    assert AllDigits("50") by {
      forall i | 0 <= i < 2 ensures IsDigit("50"[i]) { }
    }
    assert DigitsValue("1") == 1 by { assert "1"[..0] == ""; }
    assert DigitsValue("12") == 12 by { assert "12"[..1] == "1"; }
    assert DigitsValue("125") == 125 by { assert "125"[..2] == "12"; }
    assert DigitsValue("1250") == 1250 by { assert "1250"[..3] == "125"; }
    assert DigitsValue("5") == 5 by { assert "5"[..0] == ""; }
    assert DigitsValue("50") == 50 by { assert "50"[..1] == "5"; }
    assert DecimalValue("1250", "50") == 1250.0 + 50.0 / 100.0;
  }

  /** ` ETB` is a unit suffix. */
  lemma EtbSuffix()
    ensures UnitSuffix(" ETB")
  {
    assert " ETB"[1..] == "ETB" && EqualsIgnoringCase("ETB", "etb");
  }

  /** A thousands separator and the unit `ETB`: the text `1,250.50 ETB` parses to 1250.5. */
  lemma ParseAmountSeparatorExample()
    ensures ParseAmount(AmountText("1" + "," + "250" + "." + "50" + " ETB")) == 1250.5
  {
    var head, rest := "1", "250" + "." + "50" + " ETB";
    assert head + "," + rest == "1" + "," + "250" + "." + "50" + " ETB";
    assert "1" + "250" == "1250";
    assert head + rest == "" + "1250" + "." + "50" + " ETB";
    TwelveFiftyValue();
    EtbSuffix();
    ParseAmountDecimal("", "1250", "50", " ETB");
    ParseAmountIgnoresCommas(head, rest);
  }

  /**
   * Where a number can start: an optional sign, then a digit, or a dot followed
   * by a digit.
   */
  predicate StartsNumber(t: string) {
    var body := if t != [] && (t[0] == '-' || t[0] == '+') then t[1..] else t;
    body != [] && (IsDigit(body[0]) || (body[0] == '.' && |body| > 1 && IsDigit(body[1])))
  }

  /** `parseFloat` gives NaN exactly when no number starts the text. */
  lemma ParseFloatPrefixNaN(t: string)
    ensures ParseFloatPrefix(t).None? <==> !StartsNumber(t)
  {
    var body := if t != [] && (t[0] == '-' || t[0] == '+') then t[1..] else t;
    var whole := LeadingDigits(body);
    if body != [] && IsDigit(body[0]) {
      assert whole != [];
    } else {
      assert whole == [];
      assert body[|whole|..] == body;
      if body != [] && body[0] == '.' && |body| > 1 && IsDigit(body[1]) {
        assert LeadingDigits(body[1..]) != [];
      }
    }
  }

  /** Text in which, once cleaned, no number starts (including text that cleans to nothing) gives 0. */
  lemma ParseAmountNaN(s: string)
    requires !StartsNumber(CleanAmountText(s))
    ensures ParseAmount(AmountText(s)) == 0.0
  {
    ParseFloatPrefixNaN(CleanAmountText(s));
  }

  /** A leading minus sign is kept: the text `-5` parses to -5. */
  lemma ParseAmountNegative()
    ensures ParseAmount(AmountText("-5")) == -5.0
  {
    assert AllDigits("5");
    assert "-" + "5" + "" == "-5";
    ParseAmountWhole("-", "5", "");
    assert DigitsValue("5") == 5 by { assert "5"[..0] == ""; }
  }

  // ------------------------------------------------------------------ dates

  /** The six captures of the Telebirr pattern `DD-MM-YYYY HH:MM:SS`. */
  datatype DateFields = DateFields(
    day: string, month: string, year: string, hour: string, minute: string, second: string)
  {
    predicate WellShaped() {
      && |day| == 2 && AllDigits(day) && |month| == 2 && AllDigits(month)
      && |year| == 4 && AllDigits(year) && |hour| == 2 && AllDigits(hour)
      && |minute| == 2 && AllDigits(minute) && |second| == 2 && AllDigits(second)
    }

    /** The text that is handed to `new Date`: `YYYY-MM-DDTHH:MM:SS`. */
    function Rebuilt(): string {
      year + "-" + month + "-" + day + "T" + hour + ":" + minute + ":" + second
    }
  }

  /** The index just past the run of whitespace that starts at `k`. */
  function WhitespaceRunEnd(s: string, k: nat): (j: nat)
    requires k <= |s|
    ensures k <= j <= |s|
    ensures forall m :: k <= m < j ==> IsWhitespace(s[m])
    ensures j < |s| ==> !IsWhitespace(s[j])
    decreases |s| - k
  {
    if k < |s| && IsWhitespace(s[k]) then WhitespaceRunEnd(s, k + 1) else k
  }

  /** `n` decimal digits stand at index `k`. */
  predicate DigitsAt(s: string, k: nat, n: nat) {
    k + n <= |s| && AllDigits(s[k..k + n])
  }

  /**
   * Whether `(\d{2})-(\d{2})-(\d{4})\s+(\d{2}):(\d{2}):(\d{2})` matches at index `i`,
   * and its six captures. `\s+` can only end where the whitespace run ends, because
   * a digit must follow it.
   */
  function TelebirrDateAt(s: string, i: nat): (r: Option<DateFields>)
    ensures r.Some? ==> r.value.WellShaped()
    ensures r.Some? ==> (
      && i + 10 < |s|
      && var j := WhitespaceRunEnd(s, i + 10);
      && i + 10 < j && j + 8 <= |s|
      && s[i + 2] == '-' && s[i + 5] == '-' && s[j + 2] == ':' && s[j + 5] == ':'
      && r.value == DateFields(s[i..i + 2], s[i + 3..i + 5], s[i + 6..i + 10], s[j..j + 2], s[j + 3..j + 5], s[j + 6..j + 8]))
  {
    if i + 10 > |s| then None
    else
      var j := WhitespaceRunEnd(s, i + 10);
      if && i + 10 < j && j + 8 <= |s|
         && DigitsAt(s, i, 2) && s[i + 2] == '-' && DigitsAt(s, i + 3, 2) && s[i + 5] == '-' && DigitsAt(s, i + 6, 4)
         && DigitsAt(s, j, 2) && s[j + 2] == ':' && DigitsAt(s, j + 3, 2) && s[j + 5] == ':' && DigitsAt(s, j + 6, 2)
      then Some(DateFields(s[i..i + 2], s[i + 3..i + 5], s[i + 6..i + 10], s[j..j + 2], s[j + 3..j + 5], s[j + 6..j + 8]))
      else None
  }

  /** `s.match(pattern)`: the first index at or after `from` where the pattern matches. */
  function FindTelebirrDate(s: string, from: nat): (r: Option<DateFields>)
    ensures r.Some? ==> r.value.WellShaped()
    decreases |s| - from
  {
    if from > |s| then None
    else if TelebirrDateAt(s, from).Some? then TelebirrDateAt(s, from)
    else FindTelebirrDate(s, from + 1)
  }

  /** A match the search returns is the leftmost one at or after `from`. */
  lemma {:induction false} FindTelebirrDateLeftmost(s: string, from: nat)
    ensures FindTelebirrDate(s, from).Some? ==>
      exists i :: from <= i <= |s| && TelebirrDateAt(s, i) == FindTelebirrDate(s, from)
        && forall k :: from <= k < i ==> TelebirrDateAt(s, k).None?
    decreases |s| - from
  {
    if from <= |s| && TelebirrDateAt(s, from).None? && FindTelebirrDate(s, from).Some? {
      assert FindTelebirrDate(s, from) == FindTelebirrDate(s, from + 1);
      FindTelebirrDateLeftmost(s, from + 1);
      var i :| from + 1 <= i <= |s| && TelebirrDateAt(s, i) == FindTelebirrDate(s, from + 1)
        && forall k :: from + 1 <= k < i ==> TelebirrDateAt(s, k).None?;
      assert forall k :: from <= k < i ==> TelebirrDateAt(s, k).None?;
    } else if from <= |s| && TelebirrDateAt(s, from).Some? {
      assert from <= from <= |s| && TelebirrDateAt(s, from) == FindTelebirrDate(s, from);
    }
  }

  /** The search finds a match whenever one starts at or after `from`. */
  lemma {:induction false} FindTelebirrDateComplete(s: string, from: nat)
    ensures FindTelebirrDate(s, from).None? ==> forall k :: from <= k <= |s| ==> TelebirrDateAt(s, k).None?
    decreases |s| - from
  {
    if from <= |s| && TelebirrDateAt(s, from).None? {
      FindTelebirrDateComplete(s, from + 1);
    }
  }

  /** The search from `from` returns the match at `i` when none starts in between. */
  lemma {:induction false} FindTelebirrDateAt(s: string, from: nat, i: nat)
    requires from <= i && TelebirrDateAt(s, i).Some?
    requires forall k :: from <= k < i ==> TelebirrDateAt(s, k).None?
    ensures FindTelebirrDate(s, from) == TelebirrDateAt(s, i)
    decreases i - from
  {
    if from < i {
      FindTelebirrDateAt(s, from + 1, i);
    }
  }

  /**
   * `parseDate`: absent or empty text is "now"; text containing the Telebirr
   * pattern is rebuilt as `YYYY-MM-DDTHH:MM:SS` and parsed; other text is parsed
   * generically, with "now" as the fallback when that parse is invalid.
   */
  function ParseDate(dateStr: Option<string>, now: int, parse: string -> Timestamp): (r: Timestamp)
    ensures !Present(dateStr) ==> r == Instant(now)
    ensures r == InvalidTime ==>
      Present(dateStr) && exists f :: FindTelebirrDate(dateStr.value, 0) == Some(f) && parse(f.Rebuilt()) == InvalidTime
  {
    if !Present(dateStr) then Instant(now)
    else
      match FindTelebirrDate(dateStr.value, 0)
      case Some(f) => parse(f.Rebuilt())
      case None =>
        var parsed := parse(dateStr.value);
        if parsed.Instant? then parsed else Instant(now)
  }

  /** Text without the Telebirr pattern takes the generic parse, or "now" when that is invalid. */
  lemma ParseDateGeneric(text: string, now: int, parse: string -> Timestamp)
    requires text != ""
    requires forall k :: 0 <= k <= |text| ==> TelebirrDateAt(text, k).None?
    ensures parse(text).Instant? ==> ParseDate(Some(text), now, parse) == parse(text)
    ensures parse(text) == InvalidTime ==> ParseDate(Some(text), now, parse) == Instant(now)
  {
    FindTelebirrDateLeftmost(text, 0);
  }

  /** `DD-MM-YYYY HH:MM:SS` is reordered to `YYYY-MM-DDTHH:MM:SS`, keeping the six fields. */
  lemma ParseDateTelebirrFormat(f: DateFields, now: int, parse: string -> Timestamp)
    requires f.WellShaped()
    ensures ParseDate(Some(f.day + "-" + f.month + "-" + f.year + " " + f.hour + ":" + f.minute + ":" + f.second), now, parse)
      == parse(f.year + "-" + f.month + "-" + f.day + "T" + f.hour + ":" + f.minute + ":" + f.second)
  {
    var s := f.day + "-" + f.month + "-" + f.year + " " + f.hour + ":" + f.minute + ":" + f.second;
    TelebirrTextMatches(f, s);
    assert FindTelebirrDate(s, 0) == Some(f);
  }

  /**
   * Text holding a Telebirr date anywhere, leftmost at `i`, is parsed as the
   * rebuilt `YYYY-MM-DDTHH:MM:SS` of that match.
   */
  lemma ParseDateTelebirrMatch(s: string, i: nat, f: DateFields, now: int, parse: string -> Timestamp)
    requires TelebirrDateAt(s, i) == Some(f)
    requires forall k :: 0 <= k < i ==> TelebirrDateAt(s, k).None?
    ensures ParseDate(Some(s), now, parse) == parse(f.Rebuilt())
  {
    FindTelebirrDateAt(s, 0, i);
    assert s != "";
  }

  lemma TelebirrTextMatches(f: DateFields, s: string)
    requires f.WellShaped()
    requires s == f.day + "-" + f.month + "-" + f.year + " " + f.hour + ":" + f.minute + ":" + f.second
    ensures TelebirrDateAt(s, 0) == Some(f)
  {
    assert |s| == 19;
    assert s[..2] == f.day && s[3..5] == f.month && s[6..10] == f.year;
    assert s[11..13] == f.hour && s[14..16] == f.minute && s[17..19] == f.second;
    assert s[2] == '-' && s[5] == '-' && s[10] == ' ' && s[13] == ':' && s[16] == ':';
    assert IsDigit(s[11]) by { assert s[11] == f.hour[0]; }
    assert WhitespaceRunEnd(s, 11) == 11;
    assert WhitespaceRunEnd(s, 10) == 11;
  }

  // ----------------------------------------------------------------- status

  /**
   * `parseStatus`: case-insensitive keyword search; a success word wins over a
   * failure word, and anything else (absence included) is pending.
   */
  function ParseStatus(rawStatus: Option<string>): (r: TransactionStatus)
    ensures !Present(rawStatus) ==> r == Pending
  {
    if !Present(rawStatus) then Pending
    else
      var lower := ToLower(rawStatus.value);
      if Includes(lower, "success") || Includes(lower, "completed") || Includes(lower, "paid") then Success
      else if Includes(lower, "fail") || Includes(lower, "reject") || Includes(lower, "cancel") then Failed
      else Pending
  }

  /** `w` occurs somewhere in `t`. */
  ghost predicate Mentions(t: string, w: string) {
    exists i :: OccursAt(t, w, i)
  }

  ghost predicate SuccessWord(t: string) {
    Mentions(t, "success") || Mentions(t, "completed") || Mentions(t, "paid")
  }

  ghost predicate FailureWord(t: string) {
    Mentions(t, "fail") || Mentions(t, "reject") || Mentions(t, "cancel")
  }

  /**
   * The classification in terms of where the keywords occur in the lower-cased
   * text: success iff a success word occurs; failed iff a failure word occurs and
   * no success word does; pending when the status is absent or empty, or holds
   * neither kind of word.
   */
  lemma ParseStatusIff(rawStatus: Option<string>)
    ensures ParseStatus(rawStatus) == Success <==>
      Present(rawStatus) && SuccessWord(ToLower(rawStatus.value))
    ensures ParseStatus(rawStatus) == Failed <==>
      Present(rawStatus) && !SuccessWord(ToLower(rawStatus.value)) && FailureWord(ToLower(rawStatus.value))
    ensures ParseStatus(rawStatus) == Pending <==>
      !Present(rawStatus) || (!SuccessWord(ToLower(rawStatus.value)) && !FailureWord(ToLower(rawStatus.value)))
  {
    if Present(rawStatus) {
      var lower := ToLower(rawStatus.value);
      IncludesIff(lower, "success");
      IncludesIff(lower, "completed");
      IncludesIff(lower, "paid");
      IncludesIff(lower, "fail");
      IncludesIff(lower, "reject");
      IncludesIff(lower, "cancel");
    }
  }

  /** A success word decides the status even when a failure word is present too. */
  lemma ParseStatusSuccessWins(s: string, i: nat)
    requires OccursAt(ToLower(s), "paid", i) || OccursAt(ToLower(s), "success", i) || OccursAt(ToLower(s), "completed", i)
    ensures ParseStatus(Some(s)) == Success
  {
    assert s != "";
    assert SuccessWord(ToLower(s));
    ParseStatusIff(Some(s));
  }

  // ------------------------------------------------------------ normalizers

  /** The record every failure branch returns: amount 0, status failed, no raw data. */
  function FailureResponse(paymentMethod: string, reference: string, error: string, now: int): (r: NormalizedVerifierResponse)
    ensures !r.success && r.FailureTagged() && r.NoEmptyIdentity()
    ensures r.payment_method == paymentMethod && r.receipt_reference == reference
    ensures r.error == Some(error) && r.date == Instant(now)
  {
    NormalizedVerifierResponse(
      success := false, payment_method := paymentMethod, amount := 0.0,
      receiver_name := None, receiver_account := None, payer_name := None, payer_account := None,
      date := Instant(now), timestamp := None, receipt_reference := reference,
      status := Failed, raw_data := None, error := Some(error))
  }

  /** `normalizeTelebirr`: `null` is a failure under the caller's reference. */
  function NormalizeTelebirr(data: Option<TelebirrReceipt>, reference: string, now: int, parse: string -> Timestamp)
    : (r: NormalizedVerifierResponse)
    ensures r.payment_method == "telebirr" && r.FailureTagged() && r.NoEmptyIdentity()
    ensures r.success <==> data.Some?
    ensures data.None? ==> r == FailureResponse("telebirr", reference, "Failed to fetch Telebirr receipt", now)
    ensures data.Some? ==> && r.raw_data == Some(TelebirrData(data.value)) && r.error.None?
                           && r.amount == ParseAmount(AmountText(data.value.settledAmount))
                           && r.status == ParseStatus(Some(data.value.transactionStatus))
                           && r.receipt_reference == OrElse(Some(data.value.receiptNo), reference)
                           && r.receiver_account == OrAbsent(Some(data.value.creditedPartyAccountNo))
                           && r.receiver_name == OrAbsent(Some(data.value.creditedPartyName))
                           && r.payer_name == OrAbsent(Some(data.value.payerName))
                           && r.payer_account == OrAbsent(Some(data.value.payerTelebirrNo))
                           && r.date == ParseDate(Some(data.value.paymentDate), now, parse)
  {
    match data
    case None => FailureResponse("telebirr", reference, "Failed to fetch Telebirr receipt", now)
    case Some(d) =>
      NormalizedVerifierResponse(
        success := true, payment_method := "telebirr",
        amount := ParseAmount(AmountText(d.settledAmount)),
        receiver_name := OrAbsent(Some(d.creditedPartyName)),
        receiver_account := OrAbsent(Some(d.creditedPartyAccountNo)),
        payer_name := OrAbsent(Some(d.payerName)),
        payer_account := OrAbsent(Some(d.payerTelebirrNo)),
        date := ParseDate(Some(d.paymentDate), now, parse), timestamp := None,
        receipt_reference := OrElse(Some(d.receiptNo), reference),
        status := ParseStatus(Some(d.transactionStatus)),
        raw_data := Some(TelebirrData(d)), error := None)
  }

  /** `normalizeCBE`: the amount is taken as a number (`|| 0`) and the status is always success. */
  function NormalizeCBE(data: CBEVerifyResult, now: int): (r: NormalizedVerifierResponse)
    ensures r.payment_method == "cbe" && r.FailureTagged() && r.NoEmptyIdentity()
    ensures r.success == data.success && r.receipt_reference == OrElse(data.reference, "")
    ensures !data.success ==> r.error == Some(OrElse(data.error, "CBE verification failed"))
    ensures data.success ==> && r.raw_data == Some(CBEData(data)) && r.error.None? && r.status == Success
                             && r.amount == data.amount.GetOr(0.0)
                             && r.date == Instant(data.date.GetOr(now))
                             && r.receiver_account == OrAbsent(data.receiverAccount)
                             && r.receiver_name == OrAbsent(data.receiver)
                             && r.payer_name == OrAbsent(data.payer)
                             && r.payer_account == OrAbsent(data.payerAccount)
  {
    if !data.success then
      FailureResponse("cbe", OrElse(data.reference, ""), OrElse(data.error, "CBE verification failed"), now)
    else
      NormalizedVerifierResponse(
        success := true, payment_method := "cbe",
        amount := data.amount.GetOr(0.0),
        receiver_name := OrAbsent(data.receiver),
        receiver_account := OrAbsent(data.receiverAccount),
        payer_name := OrAbsent(data.payer),
        payer_account := OrAbsent(data.payerAccount),
        date := if data.date.Some? then Instant(data.date.value) else Instant(now), timestamp := None,
        receipt_reference := OrElse(data.reference, ""),
        status := Success,
        raw_data := Some(CBEData(data)), error := None)
  }

  /** `normalizeDashen`: the status is always success. */
  function NormalizeDashen(data: DashenVerifyResult, now: int, parse: string -> Timestamp): (r: NormalizedVerifierResponse)
    ensures r.payment_method == "dashen" && r.FailureTagged() && r.NoEmptyIdentity()
    ensures r.success == data.success && r.receipt_reference == OrElse(data.transactionReference, "")
    ensures !data.success ==> r.error == Some(OrElse(data.error, "Dashen verification failed"))
    ensures data.success ==> && r.raw_data == Some(DashenData(data)) && r.error.None? && r.status == Success
                             && r.amount == ParseAmount(TextOrAbsent(data.transactionAmount))
                             && r.date == ParseDate(data.transactionDate, now, parse)
                             && r.receiver_account == OrAbsent(data.receiverAccountNumber)
                             && r.receiver_name == OrAbsent(data.receiverName)
                             && r.payer_name == OrAbsent(data.senderName)
                             && r.payer_account == OrAbsent(data.senderAccountNumber)
  {
    if !data.success then
      FailureResponse("dashen", OrElse(data.transactionReference, ""), OrElse(data.error, "Dashen verification failed"), now)
    else
      NormalizedVerifierResponse(
        success := true, payment_method := "dashen",
        amount := ParseAmount(TextOrAbsent(data.transactionAmount)),
        receiver_name := OrAbsent(data.receiverName),
        receiver_account := OrAbsent(data.receiverAccountNumber),
        payer_name := OrAbsent(data.senderName),
        payer_account := OrAbsent(data.senderAccountNumber),
        date := ParseDate(data.transactionDate, now, parse), timestamp := None,
        receipt_reference := OrElse(data.transactionReference, ""),
        status := Success,
        raw_data := Some(DashenData(data)), error := None)
  }

  /** `normalizeAbyssinia`: the status is classified from the source's status text. */
  function NormalizeAbyssinia(data: AbyssiniaVerifyResult, now: int, parse: string -> Timestamp): (r: NormalizedVerifierResponse)
    ensures r.payment_method == "abyssinia" && r.FailureTagged() && r.NoEmptyIdentity()
    ensures r.success == data.success && r.receipt_reference == OrElse(data.transactionReference, "")
    ensures !data.success ==> r.error == Some(OrElse(data.error, "Abyssinia verification failed"))
    ensures data.success ==> && r.raw_data == Some(AbyssiniaData(data)) && r.error.None?
                             && r.status == ParseStatus(data.status)
                             && r.amount == ParseAmount(TextOrAbsent(data.amount))
                             && r.date == ParseDate(data.date, now, parse)
                             && r.receiver_account == OrAbsent(data.receiverAccount)
                             && r.receiver_name == OrAbsent(data.receiver)
                             && r.payer_name == OrAbsent(data.payer)
                             && r.payer_account == OrAbsent(data.payerAccount)
  {
    if !data.success then
      FailureResponse("abyssinia", OrElse(data.transactionReference, ""), OrElse(data.error, "Abyssinia verification failed"), now)
    else
      NormalizedVerifierResponse(
        success := true, payment_method := "abyssinia",
        amount := ParseAmount(TextOrAbsent(data.amount)),
        receiver_name := OrAbsent(data.receiver),
        receiver_account := OrAbsent(data.receiverAccount),
        payer_name := OrAbsent(data.payer),
        payer_account := OrAbsent(data.payerAccount),
        date := ParseDate(data.date, now, parse), timestamp := None,
        receipt_reference := OrElse(data.transactionReference, ""),
        status := ParseStatus(data.status),
        raw_data := Some(AbyssiniaData(data)), error := None)
  }

  /** `normalizeCBEBirr`: no payer account is ever set. */
  function NormalizeCBEBirr(data: CBEBirrVerifyResult, now: int, parse: string -> Timestamp): (r: NormalizedVerifierResponse)
    ensures r.payment_method == "cbebirr" && r.FailureTagged() && r.NoEmptyIdentity()
    ensures r.success == data.success && r.receipt_reference == OrElse(data.receiptNumber, "")
    ensures r.payer_account.None?
    ensures !data.success ==> r.error == Some(OrElse(data.error, "CBE Birr verification failed"))
    ensures data.success ==> && r.raw_data == Some(CBEBirrData(data)) && r.error.None?
                             && r.status == ParseStatus(data.status)
                             && r.amount == ParseAmount(TextOrAbsent(data.amount))
                             && r.date == ParseDate(data.timestamp, now, parse)
                             && r.receiver_account == OrAbsent(data.receiverAccount)
                             && r.receiver_name == OrAbsent(data.receiver)
                             && r.payer_name == OrAbsent(data.payer)
  {
    if !data.success then
      FailureResponse("cbebirr", OrElse(data.receiptNumber, ""), OrElse(data.error, "CBE Birr verification failed"), now)
    else
      NormalizedVerifierResponse(
        success := true, payment_method := "cbebirr",
        amount := ParseAmount(TextOrAbsent(data.amount)),
        receiver_name := OrAbsent(data.receiver),
        receiver_account := OrAbsent(data.receiverAccount),
        payer_name := OrAbsent(data.payer),
        payer_account := None,
        date := ParseDate(data.timestamp, now, parse), timestamp := None,
        receipt_reference := OrElse(data.receiptNumber, ""),
        status := ParseStatus(data.status),
        raw_data := Some(CBEBirrData(data)), error := None)
  }
}
