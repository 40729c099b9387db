/**
 * The secondary validator: four checks of a canonical transaction against the
 * expected receiver profile of its payment method, and the verdict built from them.
 * The clock, the profile table and the configuration are parameters.
 */
module SecondaryValidator {
  import opened Optional
  import opened JsText
  import opened NormalizedTypes
  import opened ReceiverProfiles
  import Normalizer

  // ------------------------------------------------------------------ names

  /**
   * `s.toLowerCase().replace(/\s+/g, ' ').trim()`: never longer than the name.
   */
  function NameKey(s: string): (r: string)
    ensures |r| <= |s|
  {
    Trim(CollapseWhitespace(ToLower(s)))
  }

  /** `namesMatch`: null without an expected name, false without an actual one, else fuzzy equality. */
  function NamesMatch(actual: Option<string>, expected: Option<string>): (r: Option<bool>)
    ensures r.None? <==> !Present(expected)
    ensures Present(expected) && !Present(actual) ==> r == Some(false)
  {
    if !Present(expected) then None
    else if !Present(actual) then Some(false)
    else
      Some(KeysMatch(NameKey(actual.value), NameKey(expected.value)))
  }

  /** Equality or containment either way, on normalised names. */
  predicate KeysMatch(actualNorm: string, expectedNorm: string) {
    actualNorm == expectedNorm || Includes(actualNorm, expectedNorm) || Includes(expectedNorm, actualNorm)
  }

  /** Containment either way suffices: equal keys contain each other. */
  lemma KeysMatchIff(a: string, e: string)
    ensures KeysMatch(a, e) <==> (exists i :: OccursAt(a, e, i)) || (exists i :: OccursAt(e, a, i))
  {
    IncludesIff(a, e);
    IncludesIff(e, a);
    if a == e {
      assert OccursAt(a, e, 0);
    }
  }

  /** Two present names match iff either normalised name occurs inside the other; equality adds nothing. */
  lemma NamesMatchIff(actual: string, expected: string)
    requires actual != "" && expected != ""
    ensures NamesMatch(Some(actual), Some(expected)) == Some(true) <==>
      (exists i :: OccursAt(NameKey(actual), NameKey(expected), i))
      || (exists i :: OccursAt(NameKey(expected), NameKey(actual), i))
  {
    KeysMatchIff(NameKey(actual), NameKey(expected));
  }

  /** For two present names the order of the arguments does not matter. */
  lemma NamesMatchSymmetric(a: string, b: string)
    requires a != "" && b != ""
    ensures NamesMatch(Some(a), Some(b)) == NamesMatch(Some(b), Some(a))
  {
  }

  /** Names that differ only in the case of their letters are interchangeable, on either side. */
  lemma NamesMatchIgnoresCase(a: string, b: string, other: Option<string>)
    requires ToLower(a) == ToLower(b)
    ensures NamesMatch(Some(a), other) == NamesMatch(Some(b), other)
    ensures NamesMatch(other, Some(a)) == NamesMatch(other, Some(b))
  {
    assert |a| == |ToLower(a)| == |ToLower(b)| == |b|;
  }

  /**
   * A maximal whitespace run inside a name, of any length and made of any
   * whitespace, counts as one space, on either side of the comparison.
   */
  lemma NamesMatchIgnoresSpacing(x: string, w: string, y: string, other: Option<string>)
    requires x == [] || !IsWhitespace(x[|x| - 1])
    requires w != [] && AllWhitespace(w)
    requires y == [] || !IsWhitespace(y[0])
    ensures NamesMatch(Some(x + w + y), other) == NamesMatch(Some(x + " " + y), other)
    ensures NamesMatch(other, Some(x + w + y)) == NamesMatch(other, Some(x + " " + y))
  {
    NameKeySpacing(x, w, y);
    NamesMatchSameKey(x + w + y, x + " " + y, other);
  }

  /** Present names with the same normalised form are interchangeable, on either side. */
  lemma NamesMatchSameKey(a: string, b: string, other: Option<string>)
    requires a != "" && b != "" && NameKey(a) == NameKey(b)
    ensures NamesMatch(Some(a), other) == NamesMatch(Some(b), other)
    ensures NamesMatch(other, Some(a)) == NamesMatch(other, Some(b))
  {
  }

  /** The normalised name does not depend on how a whitespace run is written. */
  lemma NameKeySpacing(x: string, w: string, y: string)
    requires x == [] || !IsWhitespace(x[|x| - 1])
    requires w != [] && AllWhitespace(w)
    requires y == [] || !IsWhitespace(y[0])
    ensures NameKey(x + w + y) == NameKey(x + " " + y)
  {
    SpaceRun();
    LowerSplit(x, w, y);
    LowerSplit(x, " ", y);
    LowerEnds(x, y);
    CollapseWhitespaceRun(ToLower(x), w, ToLower(y));
    CollapseWhitespaceRun(ToLower(x), " ", ToLower(y));
  }

  /** Helper for NameKeySpacing: one space is a whitespace run. */
  lemma SpaceRun()
    ensures " " != [] && AllWhitespace(" ")
  {
    assert IsWhitespace(" "[0]);
  }

  /** Helper for NameKeySpacing: lower-casing a name around a whitespace run leaves the run as it is. */
  lemma LowerSplit(x: string, w: string, y: string)
    requires AllWhitespace(w)
    ensures ToLower(x + w + y) == ToLower(x) + w + ToLower(y)
  {
    ToLowerAppend(x + w, y);
    ToLowerAppend(x, w);
    ToLowerWhitespace(w);
  }

  /** Helper for NameKeySpacing: lower-casing keeps whether a name ends, or starts, with whitespace. */
  lemma LowerEnds(x: string, y: string)
    ensures x == [] || !IsWhitespace(x[|x| - 1]) ==> ToLower(x) == [] || !IsWhitespace(ToLower(x)[|x| - 1])
    ensures y == [] || !IsWhitespace(y[0]) ==> ToLower(y) == [] || !IsWhitespace(ToLower(y)[0])
  {
    if x != [] {
      LowerCharWhitespace(x[|x| - 1]);
    }
    if y != [] {
      LowerCharWhitespace(y[0]);
    }
  }

  /** Lower-casing leaves whitespace alone. */
  lemma ToLowerWhitespace(s: string)
    requires forall i :: 0 <= i < |s| ==> IsWhitespace(s[i])
    ensures ToLower(s) == s
  {
    assert forall i :: 0 <= i < |s| ==> ToLower(s)[i] == LowerChar(s[i]);
  }

  /** A name made only of whitespace normalises to the empty string. */
  lemma {:induction false} BlankNameKey(s: string)
    requires forall i :: 0 <= i < |s| ==> IsWhitespace(s[i])
    ensures NameKey(s) == ""
  {
    if s != [] {
      assert ToLower(s) == s by {
        ToLowerWhitespace(s);
      }
      assert TrimStart(s[1..]) == [] by {
        var t := s[1..];
        assert forall i :: 0 <= i < |t| ==> t[i] == s[i + 1];
        TrimStartBlank(t);
      }
      CollapseBlank(s);
      TrimSpace();
    }
  }

  /** Whitespace followed by nothing but whitespace collapses to one space. */
  lemma CollapseBlank(s: string)
    requires s != [] && IsWhitespace(s[0]) && TrimStart(s[1..]) == []
    ensures CollapseWhitespace(s) == [' ']
  {
    assert CollapseWhitespace([]) == [];
  }

  lemma TrimSpace()
    ensures Trim([' ']) == []
  {
    assert [' '][1..] == [];
    assert TrimStart([' ']) == [];
  }

  /** Trimming a string made only of whitespace leaves nothing. */
  lemma {:induction false} TrimStartBlank(t: string)
    requires forall i :: 0 <= i < |t| ==> IsWhitespace(t[i])
    ensures TrimStart(t) == []
  {
    if t != [] {
      var u := t[1..];
      assert forall i :: 0 <= i < |u| ==> u[i] == t[i + 1];
      TrimStartBlank(u);
    }
  }

  /**
   * A present actual name made only of whitespace normalises to the empty string,
   * which every expected name contains: it passes the name check.
   */
  lemma NamesMatchBlankActual(actual: string, expected: string)
    requires actual != "" && expected != ""
    requires forall i :: 0 <= i < |actual| ==> IsWhitespace(actual[i])
    ensures NamesMatch(Some(actual), Some(expected)) == Some(true)
  {
    BlankNameKey(actual);
    var e := NameKey(expected);
    assert e[..0] == [];
    assert Includes(e, "");
  }

  // --------------------------------------------------------------- accounts

  /** The characters `/[\s\-\.]/g` removes. */
  predicate IsFormatting(c: char) {
    IsWhitespace(c) || c == '-' || c == '.'
  }

  /** `s.replace(/[\s\-\.]/g, '')`. */
  function StripFormatting(s: string): (r: string)
    ensures |r| <= |s|
    ensures forall i :: 0 <= i < |r| ==> !IsFormatting(r[i])
  {
    if s == [] then [] else (if IsFormatting(s[0]) then [] else [s[0]]) + StripFormatting(s[1..])
  }

  /** A masked position: `*`, `x` or `X`, compared after lower-casing. */
  predicate IsWildcard(c: char) {
    LowerChar(c) == '*' || LowerChar(c) == 'x'
  }

  /** Position `i` of the actual suffix is accepted: a wildcard, or its lower case equals the expected character there. */
  predicate CharAgrees(a: string, e: string, i: nat)
    requires i < |a|
  {
    IsWildcard(a[i]) || (i < |e| && LowerChar(a[i]) == e[i])
  }

  predicate SuffixAgrees(a: string, e: string) {
    forall i :: 0 <= i < |a| ==> CharAgrees(a, e, i)
  }

  /**
   * What `accountsMatch` decides: null without an expected account, false without
   * an actual one, else the normalised actual suffix must be long enough and agree
   * position by position with the expected suffix.
   */
  function AccountsMatchSpec(actual: Option<string>, expected: Option<string>, suffixDigits: nat): (r: Option<bool>)
    ensures r.None? <==> !Present(expected)
    ensures Present(expected) && !Present(actual) ==> r == Some(false)
  {
    if !Present(expected) then None
    else if !Present(actual) then Some(false)
    else
      var expectedNorm := StripFormatting(expected.value);
      var a := SliceLast(StripFormatting(actual.value), suffixDigits);
      var e := SliceLast(expectedNorm, suffixDigits);
      Some(|a| >= Min(suffixDigits, |expectedNorm|) && SuffixAgrees(a, e))
  }

  /** `accountsMatch`, with its loop over the actual suffix and its early returns. */
  method AccountsMatch(actual: Option<string>, expected: Option<string>, suffixDigits: nat) returns (r: Option<bool>)
    ensures r == AccountsMatchSpec(actual, expected, suffixDigits)
  {
    if !Present(expected) {
      return None;
    }
    if !Present(actual) {
      return Some(false);
    }
    var actualNorm := StripFormatting(actual.value);
    var expectedNorm := StripFormatting(expected.value);
    var actualSuffix := SliceLast(actualNorm, suffixDigits);
    var expectedSuffix := SliceLast(expectedNorm, suffixDigits);
    assert AccountsMatchSpec(actual, expected, suffixDigits)
        == Some(|actualSuffix| >= Min(suffixDigits, |expectedNorm|) && SuffixAgrees(actualSuffix, expectedSuffix));
    if |actualSuffix| < Min(suffixDigits, |expectedNorm|) {
      return Some(false);
    }
    for i := 0 to |actualSuffix|
      invariant forall k :: 0 <= k < i ==> CharAgrees(actualSuffix, expectedSuffix, k)
    {
      var actualChar := LowerChar(actualSuffix[i]);
      if actualChar == '*' || actualChar == 'x' {
        continue;
      }
      if i >= |expectedSuffix| || actualChar != expectedSuffix[i] {
        assert !CharAgrees(actualSuffix, expectedSuffix, i);
        return Some(false);
      }
    }
    return Some(true);
  }

  lemma {:induction false} StripFormattingAppend(x: string, y: string)
    ensures StripFormatting(x + y) == StripFormatting(x) + StripFormatting(y)
  {
    if x == [] {
      assert x + y == y;
    } else {
      assert (x + y)[0] == x[0];
      assert (x + y)[1..] == x[1..] + y;
      StripFormattingAppend(x[1..], y);
      var head := if IsFormatting(x[0]) then [] else [x[0]];
      calc {
        StripFormatting(x + y);
        head + StripFormatting(x[1..] + y);
        head + (StripFormatting(x[1..]) + StripFormatting(y));
        (head + StripFormatting(x[1..])) + StripFormatting(y);
      }
    }
  }

  /** A formatting character anywhere in a string is dropped by the normalisation. */
  lemma StripFormattingDrops(p: string, c: char, q: string)
    requires IsFormatting(c)
    ensures StripFormatting(p + [c] + q) == StripFormatting(p + q)
  {
    StripFormattingAppend(p + [c], q);
    StripFormattingAppend(p, [c]);
    StripFormattingAppend(p, q);
    assert StripFormatting([c]) == [];
  }

  /**
   * Inserting a space, `-` or `.` into the actual or the expected account never
   * changes the result, as long as the string stays non-empty without it.
   */
  lemma AccountsMatchIgnoresFormatting(p: string, c: char, q: string, other: Option<string>, suffixDigits: nat)
    requires IsFormatting(c) && p + q != ""
    ensures AccountsMatchSpec(Some(p + [c] + q), other, suffixDigits) == AccountsMatchSpec(Some(p + q), other, suffixDigits)
    ensures AccountsMatchSpec(other, Some(p + [c] + q), suffixDigits) == AccountsMatchSpec(other, Some(p + q), suffixDigits)
  {
    StripFormattingDrops(p, c, q);
    assert |p + [c] + q| > 0;
  }

  /**
   * The non-empty condition above is needed: an expected account made only of
   * formatting is present, so the check runs and fails, while the empty string
   * counts as absent and skips it.
   */
  lemma AccountsMatchFormattingOnly()
    ensures AccountsMatchSpec(Some("1"), Some("-"), 6) == Some(false)
    ensures AccountsMatchSpec(Some("1"), Some(""), 6).None?
  {
    assert StripFormatting("-") == "" by {
      assert IsFormatting('-') && "-"[1..] == "";
    }
    assert StripFormatting("1") == "1" by {
      assert !IsFormatting('1') && "1"[1..] == "";
    }
    assert !SuffixAgrees("1", "") by {
      assert !IsWildcard('1');
      assert !CharAgrees("1", "", 0);
    }
  }

  /** An actual account whose normalised suffix is shorter than required never matches. */
  lemma AccountsMatchShortFails(actual: string, expected: string, suffixDigits: nat)
    requires actual != "" && expected != ""
    requires |StripFormatting(actual)| < Min(suffixDigits, |StripFormatting(expected)|)
    ensures AccountsMatchSpec(Some(actual), Some(expected), suffixDigits) == Some(false)
  {
  }

  /** Once long enough, an actual account made only of wildcards matches every expected account. */
  lemma AccountsMatchAllMasked(actual: string, expected: string, suffixDigits: nat)
    requires actual != "" && expected != ""
    requires forall i :: 0 <= i < |actual| ==> IsWildcard(actual[i])
    requires |actual| >= suffixDigits
    ensures AccountsMatchSpec(Some(actual), Some(expected), suffixDigits) == Some(true)
  {
    assert StripFormatting(actual) == actual by {
      NoFormattingKept(actual);
    }
  }

  /** A string without formatting characters is its own normalisation. */
  lemma {:induction false} NoFormattingKept(s: string)
    requires forall i :: 0 <= i < |s| ==> !IsFormatting(s[i])
    ensures StripFormatting(s) == s
  {
    if s != [] {
      NoFormattingKept(s[1..]);
    }
  }

  /** Characters before the last `suffixDigits` significant ones are never looked at. */
  lemma AccountsMatchOnlySuffixCounts(p: string, q: string, expected: Option<string>, suffixDigits: nat)
    requires suffixDigits > 0 && |StripFormatting(q)| >= suffixDigits
    ensures AccountsMatchSpec(Some(p + q), expected, suffixDigits) == AccountsMatchSpec(Some(q), expected, suffixDigits)
  {
    var x, y := StripFormatting(p), StripFormatting(q);
    assert SliceLast(StripFormatting(p + q), suffixDigits) == SliceLast(y, suffixDigits) by {
      StripFormattingAppend(p, q);
      SliceLastOfJoin(x, y, suffixDigits);
    }
    assert p + q != "" && q != "";
    AccountsMatchSameSuffix(p + q, q, expected, suffixDigits);
  }

  /** Two actual accounts with the same normalised suffix get the same result. */
  lemma AccountsMatchSameSuffix(a1: string, a2: string, expected: Option<string>, suffixDigits: nat)
    requires a1 != "" && a2 != ""
    requires SliceLast(StripFormatting(a1), suffixDigits) == SliceLast(StripFormatting(a2), suffixDigits)
    ensures AccountsMatchSpec(Some(a1), expected, suffixDigits) == AccountsMatchSpec(Some(a2), expected, suffixDigits)
  {
  }

  /** The last `n` characters of a join come from its second part when that part has `n`. */
  lemma SliceLastOfJoin(x: string, y: string, n: nat)
    requires 0 < n <= |y|
    ensures SliceLast(x + y, n) == SliceLast(y, n)
  {
    assert (x + y)[|x + y| - n..] == y[|y| - n..];
  }

  /**
   * From a matching actual account without formatting, changing one character of
   * its suffix to a different non-wildcard character (different also in lower case)
   * makes it fail.
   */
  lemma AccountsMatchChangeFails(actual: string, expected: string, suffixDigits: nat, i: nat, c: char)
    requires forall k :: 0 <= k < |actual| ==> !IsFormatting(actual[k])
    requires AccountsMatchSpec(Some(actual), Some(expected), suffixDigits) == Some(true)
    requires i < |actual| && (suffixDigits == 0 || i >= |actual| - suffixDigits)
    requires !IsWildcard(actual[i]) && !IsWildcard(c) && !IsFormatting(c)
    requires LowerChar(c) != LowerChar(actual[i])
    ensures AccountsMatchSpec(Some(actual[i := c]), Some(expected), suffixDigits) == Some(false)
  {
    var changed := actual[i := c];
    ChangedStaysUnformatted(actual, i, c);
    var a := SliceLast(actual, suffixDigits);
    var b := SliceLast(changed, suffixDigits);
    var e := SliceLast(StripFormatting(expected), suffixDigits);
    SliceLastUpdate(actual, suffixDigits, i, c);
    ChangedSuffixDisagrees(a, b, e, i - (|actual| - |a|));
    AccountsMatchSpecUnformatted(actual, expected, suffixDigits);
    AccountsMatchSpecUnformatted(changed, expected, suffixDigits);
  }

  /** Helper for AccountsMatchChangeFails: the decision for a present, unformatted actual account. */
  lemma AccountsMatchSpecUnformatted(actual: string, expected: string, suffixDigits: nat)
    requires actual != "" && expected != "" && StripFormatting(actual) == actual
    ensures var a := SliceLast(actual, suffixDigits);
            var e := SliceLast(StripFormatting(expected), suffixDigits);
            AccountsMatchSpec(Some(actual), Some(expected), suffixDigits) == Some(|a| >= Min(suffixDigits, |StripFormatting(expected)|) && SuffixAgrees(a, e))
  {
  }

  /** Helper for AccountsMatchChangeFails: a changed position inside the compared suffix, seen from the suffix. */
  lemma SliceLastUpdate(s: string, n: nat, i: nat, c: char)
    requires i < |s| && (n == 0 || i >= |s| - n)
    ensures var a := SliceLast(s, n);
            var b := SliceLast(s[i := c], n);
            && |a| == |b| && |s| - |a| <= i
            && a[i - (|s| - |a|)] == s[i] && b[i - (|s| - |a|)] == c
  {
  }

  /** Replacing one character by a non-formatting one keeps an unformatted string unformatted. */
  lemma ChangedStaysUnformatted(s: string, i: nat, c: char)
    requires forall k :: 0 <= k < |s| ==> !IsFormatting(s[k])
    requires i < |s| && !IsFormatting(c)
    ensures StripFormatting(s) == s && StripFormatting(s[i := c]) == s[i := c]
  {
    NoFormattingKept(s);
    var t := s[i := c];
    assert forall k :: 0 <= k < |t| ==> t[k] == if k == i then c else s[k];
    NoFormattingKept(t);
  }

  /** A suffix that agreed stops agreeing once a non-wildcard position takes a different letter. */
  lemma ChangedSuffixDisagrees(a: string, b: string, e: string, j: nat)
    requires j < |a| && j < |b| && SuffixAgrees(a, e)
    requires !IsWildcard(a[j]) && !IsWildcard(b[j]) && LowerChar(b[j]) != LowerChar(a[j])
    ensures !SuffixAgrees(b, e)
  {
    assert CharAgrees(a, e, j);
    assert !CharAgrees(b, e, j);
  }

  /**
   * An account compared with itself: the actual side is lower-cased and the
   * expected side is not, so it matches exactly when no upper-case letter other
   * than the wildcard `X` lies in the compared suffix.
   */
  lemma AccountsMatchSelf(account: string, suffixDigits: nat)
    requires account != ""
    ensures AccountsMatchSpec(Some(account), Some(account), suffixDigits) == Some(true)
      <==> NoUpperButWildcards(SliceLast(StripFormatting(account), suffixDigits))
  {
    var n := StripFormatting(account);
    var a := SliceLast(n, suffixDigits);
    var m := AccountsMatchSpec(Some(account), Some(account), suffixDigits);
    assert m == Some(SuffixAgrees(a, a)) by {
      assert |a| >= Min(suffixDigits, |n|);
    }
    SelfAgreesIff(a);
    assert m == Some(true) <==> NoUpperButWildcards(a);
  }

  /** Every upper-case letter of `a` is the wildcard `X`. */
  predicate NoUpperButWildcards(a: string) {
    forall i :: 0 <= i < |a| ==> IsWildcard(a[i]) || !('A' <= a[i] <= 'Z')
  }

  /** A string agrees with itself exactly where no non-wildcard upper-case letter stands. */
  lemma SelfAgreesIff(a: string)
    ensures SuffixAgrees(a, a) <==> NoUpperButWildcards(a)
  {
    if NoUpperButWildcards(a) {
      assert forall i :: 0 <= i < |a| ==> CharAgrees(a, a, i);
    } else {
      var i :| 0 <= i < |a| && !IsWildcard(a[i]) && 'A' <= a[i] <= 'Z';
      assert !CharAgrees(a, a, i);
    }
  }

  /** An account of decimal digits matches itself, whatever the suffix length. */
  lemma AccountsMatchDigitsSelf(account: string, suffixDigits: nat)
    requires account != "" && AllDigits(account)
    ensures AccountsMatchSpec(Some(account), Some(account), suffixDigits) == Some(true)
  {
    assert StripFormatting(account) == account by {
      NoFormattingKept(account);
    }
    var a := SliceLast(account, suffixDigits);
    assert NoUpperButWildcards(a) by {
      forall i | 0 <= i < |a| ensures IsDigit(a[i]) {
        assert a[i] == account[|account| - |a| + i];
      }
    }
    AccountsMatchSelf(account, suffixDigits);
  }

  /**
   * A masked account matches: `mask + tail` against `head + tail`, comparing the
   * last `|tail|` characters, matches whatever `mask` and `head` hold (wildcards
   * and non-formatting characters) when `tail` is digits.
   */
  lemma AccountsMatchMaskedTail(mask: string, head: string, tail: string)
    requires tail != [] && AllDigits(tail)
    requires forall i :: 0 <= i < |mask| ==> IsWildcard(mask[i])
    requires forall i :: 0 <= i < |head| ==> !IsFormatting(head[i])
    ensures AccountsMatchSpec(Some(mask + tail), Some(head + tail), |tail|) == Some(true)
  {
    var x, y := mask + tail, head + tail;
    assert StripFormatting(x) == x by {
      assert forall i :: 0 <= i < |mask| ==> !IsFormatting(mask[i]);
      assert forall i :: 0 <= i < |tail| ==> !IsFormatting(tail[i]);
      UnformattedJoin(mask, tail);
    }
    assert StripFormatting(y) == y by {
      assert forall i :: 0 <= i < |tail| ==> !IsFormatting(tail[i]);
      UnformattedJoin(head, tail);
    }
    assert SliceLast(x, |tail|) == tail && SliceLast(y, |tail|) == tail;
    assert SuffixAgrees(tail, tail) by {
      assert forall i :: 0 <= i < |tail| ==> CharAgrees(tail, tail, i);
    }
    AccountsMatchUnformatted(x, y, |tail|);
  }

  /** For accounts without formatting the normalisation is the identity and only the suffixes remain. */
  lemma AccountsMatchUnformatted(actual: string, expected: string, suffixDigits: nat)
    requires actual != "" && expected != ""
    requires StripFormatting(actual) == actual && StripFormatting(expected) == expected
    ensures var a, e := SliceLast(actual, suffixDigits), SliceLast(expected, suffixDigits);
      AccountsMatchSpec(Some(actual), Some(expected), suffixDigits)
      == Some(|a| >= Min(suffixDigits, |expected|) && SuffixAgrees(a, e))
  {
  }

  /** Two strings without formatting characters are, joined, their own normalisation. */
  lemma UnformattedJoin(p: string, q: string)
    requires forall i :: 0 <= i < |p| ==> !IsFormatting(p[i])
    requires forall i :: 0 <= i < |q| ==> !IsFormatting(q[i])
    ensures StripFormatting(p + q) == p + q
  {
    NoFormattingKept(p);
    NoFormattingKept(q);
    StripFormattingAppend(p, q);
  }

  // ------------------------------------------------------------------ dates

  function Abs(x: int): nat {
    if x < 0 then -x else x
  }

  /** `dateWithinWindow`: a valid date at most `windowHours` hours (of 1000 * 60 * 60 ms) from `now`. */
  function DateWithinWindow(date: Timestamp, windowHours: nat, now: int): (r: bool)
    ensures date == InvalidTime ==> !r
  {
    date.Instant? && (Abs(now - date.ms) as real) / 3600000.0 <= windowHours as real
  }

  /** The window in whole milliseconds: `|now - date| <= windowHours * 3600000`. */
  lemma DateWithinWindowIff(ms: int, windowHours: nat, now: int)
    ensures DateWithinWindow(Instant(ms), windowHours, now) <==> Abs(now - ms) <= windowHours * 3600000
  {
    var d := Abs(now - ms) as real;
    var h := windowHours as real;
    var m := 3600000.0;
    assert d / m * m == d;
    if d / m <= h {
      assert d <= h * m;
    }
    if d <= h * m {
      assert d / m <= h;
    }
  }

  /** The window is symmetric: a date `d` ms in the past passes iff one `d` ms in the future does. */
  lemma DateWindowSymmetric(d: int, windowHours: nat, now: int)
    ensures DateWithinWindow(Instant(now - d), windowHours, now) == DateWithinWindow(Instant(now + d), windowHours, now)
  {
    assert Abs(now - (now - d)) == Abs(now - (now + d));
  }

  /** A wider window accepts every date a narrower one does. */
  lemma DateWindowMonotone(date: Timestamp, narrow: nat, wide: nat, now: int)
    requires narrow <= wide && DateWithinWindow(date, narrow, now)
    ensures DateWithinWindow(date, wide, now)
  {
  }

  // ---------------------------------------------------------------- amounts

  /** `amountsMatch`: only an under-payment beyond the tolerance fails. */
  function AmountsMatch(actual: real, expected: real, tolerance: real): bool {
    actual >= expected - tolerance
  }

  /** With a non-negative tolerance, paying the expected amount or more always passes. */
  lemma AmountsMatchOverpayment(actual: real, expected: real, tolerance: real)
    requires tolerance >= 0.0 && actual >= expected
    ensures AmountsMatch(actual, expected, tolerance)
  {
  }

  /** The boundary `expected - tolerance` passes; anything below it fails. */
  lemma AmountsMatchBoundary(actual: real, expected: real, tolerance: real)
    ensures AmountsMatch(expected - tolerance, expected, tolerance)
    ensures actual < expected - tolerance ==> !AmountsMatch(actual, expected, tolerance)
  {
  }

  /** Paying more never turns a pass into a failure. */
  lemma AmountsMatchMonotone(actual: real, more: real, expected: real, tolerance: real)
    requires actual <= more && AmountsMatch(actual, expected, tolerance)
    ensures AmountsMatch(more, expected, tolerance)
  {
  }

  // ---------------------------------------------------------------- verdict

  /** The overall pass: amount and date hold, account and name are null or true. */
  predicate Passes(checks: ValidationChecks) {
    && checks.amount_match
    && checks.date_within_window
    && (checks.receiver_account_match == None || checks.receiver_account_match == Some(true))
    && (checks.receiver_name_match == None || checks.receiver_name_match == Some(true))
  }

  /** Check `k` (in the order amount, account, name, date) came out false. */
  predicate CheckFailed(checks: ValidationChecks, k: nat) {
    if k == 0 then !checks.amount_match
    else if k == 1 then checks.receiver_account_match == Some(false)
    else if k == 2 then checks.receiver_name_match == Some(false)
    else if k == 3 then !checks.date_within_window
    else false
  }

  /** The `...` + last characters of the account, or `not found`, shown in the account reason. */
  function ShownAccount(account: Option<string>, suffixDigits: nat): string {
    if Present(account) then "..." + SliceLast(account.value, suffixDigits) else "not found"
  }

  /** The four checks of `validateTransaction`. */
  function ChecksFor(normalized: NormalizedVerifierResponse, expectedAmount: real, profile: ReceiverProfile,
                     tolerance: real, suffixDigits: nat, windowHours: nat, now: int): (c: ValidationChecks)
    ensures c.receiver_account_match.None? <==> !Present(profile.receiver_account)
    ensures c.receiver_name_match.None? <==> !Present(profile.receiver_name)
  {
    ValidationChecks(
      amount_match := AmountsMatch(normalized.amount, expectedAmount, tolerance),
      receiver_account_match :=
        if Present(profile.receiver_account)
        then AccountsMatchSpec(normalized.receiver_account, profile.receiver_account, suffixDigits)
        else None,
      receiver_name_match :=
        if Present(profile.receiver_name) then NamesMatch(normalized.receiver_name, profile.receiver_name) else None,
      date_within_window := DateWithinWindow(normalized.date, windowHours, now))
  }

  /** A tri-state check can only have a verdict when the profile names the field it checks. */
  predicate ChecksFitProfile(checks: ValidationChecks, profile: ReceiverProfile) {
    && (checks.receiver_account_match.Some? ==> Present(profile.receiver_account))
    && (checks.receiver_name_match.Some? ==> Present(profile.receiver_name))
  }

  /** The reason recorded for check `k`, if it failed. */
  function ReasonAt(k: nat, checks: ValidationChecks, normalized: NormalizedVerifierResponse, expectedAmount: real,
                    profile: ReceiverProfile, tolerance: real, suffixDigits: nat, windowHours: nat): (rs: seq<FailureReason>)
    requires ChecksFitProfile(checks, profile)
    ensures |rs| <= 1
    ensures rs != [] <==> CheckFailed(checks, k)
    ensures forall i :: 0 <= i < |rs| ==> rs[i].CheckIndex() == k
  {
    if k == 0 then
      if !checks.amount_match then [AmountTooLow(expectedAmount - tolerance, normalized.amount)] else []
    else if k == 1 then
      if checks.receiver_account_match == Some(false)
      then [WrongAccount(SliceLast(profile.receiver_account.value, suffixDigits),
                         ShownAccount(normalized.receiver_account, suffixDigits))]
      else []
    else if k == 2 then
      if checks.receiver_name_match == Some(false)
      then [WrongName(profile.receiver_name.value, OrElse(normalized.receiver_name, "none"))]
      else []
    else if k == 3 then
      if !checks.date_within_window then [DateOutsideWindow(windowHours, normalized.date)] else []
    else []
  }

  /** The reasons of checks `k` to 3, in check order. */
  function ReasonsFrom(k: nat, checks: ValidationChecks, normalized: NormalizedVerifierResponse, expectedAmount: real,
                       profile: ReceiverProfile, tolerance: real, suffixDigits: nat, windowHours: nat): seq<FailureReason>
    requires ChecksFitProfile(checks, profile)
    decreases 4 - k
  {
    if k >= 4 then []
    else
      ReasonAt(k, checks, normalized, expectedAmount, profile, tolerance, suffixDigits, windowHours)
      + ReasonsFrom(k + 1, checks, normalized, expectedAmount, profile, tolerance, suffixDigits, windowHours)
  }

  /** The reasons list holds one for check `c`. */
  predicate HasReasonFor(rs: seq<FailureReason>, c: nat) {
    exists i :: 0 <= i < |rs| && rs[i].CheckIndex() == c
  }

  /** Check positions strictly increase along the list. */
  predicate InCheckOrder(rs: seq<FailureReason>) {
    forall i, j :: 0 <= i < j < |rs| ==> rs[i].CheckIndex() < rs[j].CheckIndex()
  }

  /** Putting one reason for check `k` in front of reasons for later checks keeps the order. */
  lemma PrependOneOrder(h: FailureReason, rest: seq<FailureReason>, k: nat)
    requires h.CheckIndex() == k
    requires InCheckOrder(rest) && forall i :: 0 <= i < |rest| ==> k + 1 <= rest[i].CheckIndex()
    ensures InCheckOrder([h] + rest)
    ensures forall i :: 0 <= i < |[h] + rest| ==> k <= ([h] + rest)[i].CheckIndex()
  {
    var rs := [h] + rest;
    assert forall i :: 1 <= i < |rs| ==> rs[i] == rest[i - 1];
  }

  /** The joined list has a reason for `k`, and for each later check exactly when the rest has one. */
  lemma PrependOneReasons(h: FailureReason, rest: seq<FailureReason>, k: nat)
    requires h.CheckIndex() == k
    requires forall i :: 0 <= i < |rest| ==> k + 1 <= rest[i].CheckIndex()
    ensures HasReasonFor([h] + rest, k)
    ensures forall c :: k < c ==> (HasReasonFor([h] + rest, c) <==> HasReasonFor(rest, c))
  {
    var rs := [h] + rest;
    assert rs[0] == h;
    forall c | k < c
      ensures HasReasonFor(rs, c) <==> HasReasonFor(rest, c)
    {
      if HasReasonFor(rest, c) {
        var i :| 0 <= i < |rest| && rest[i].CheckIndex() == c;
        assert rs[i + 1] == rest[i];
      }
      if HasReasonFor(rs, c) {
        var i :| 0 <= i < |rs| && rs[i].CheckIndex() == c;
        assert rs[i] == rest[i - 1];
      }
    }
  }

  /**
   * The reasons of checks `k` to 3 are one per failed check among them, with
   * strictly increasing check positions.
   */
  lemma {:induction false} ReasonsFromSpec(k: nat, checks: ValidationChecks, normalized: NormalizedVerifierResponse,
                                           expectedAmount: real, profile: ReceiverProfile, tolerance: real, suffixDigits: nat, windowHours: nat)
    requires k <= 4 && ChecksFitProfile(checks, profile)
    ensures ReasonsShape(ReasonsFrom(k, checks, normalized, expectedAmount, profile, tolerance, suffixDigits, windowHours), checks, k)
    decreases 4 - k
  {
    if k < 4 {
      ReasonsFromSpec(k + 1, checks, normalized, expectedAmount, profile, tolerance, suffixDigits, windowHours);
      var head := ReasonAt(k, checks, normalized, expectedAmount, profile, tolerance, suffixDigits, windowHours);
      var rest := ReasonsFrom(k + 1, checks, normalized, expectedAmount, profile, tolerance, suffixDigits, windowHours);
      assert ReasonsFrom(k, checks, normalized, expectedAmount, profile, tolerance, suffixDigits, windowHours) == head + rest;
      JoinKeepsShape(head, rest, checks, k);
    } else {
      assert !HasReasonFor([], 4);
    }
  }

  /**
   * A list of reasons for checks `k` to 3: at most one per check, all for those
   * checks, in check order, and one for a check exactly when it failed.
   */
  predicate ReasonsShape(rs: seq<FailureReason>, checks: ValidationChecks, k: nat) {
    && |rs| + k <= 4
    && (forall i :: 0 <= i < |rs| ==> k <= rs[i].CheckIndex())
    && InCheckOrder(rs)
    && (forall c :: k <= c < 4 ==> (CheckFailed(checks, c) <==> HasReasonFor(rs, c)))
  }

  /** The reason (or none) for check `k` in front of the reasons for the later checks. */
  lemma JoinKeepsShape(head: seq<FailureReason>, rest: seq<FailureReason>, checks: ValidationChecks, k: nat)
    requires k < 4 && |head| <= 1 && (forall i :: 0 <= i < |head| ==> head[i].CheckIndex() == k)
    requires head != [] <==> CheckFailed(checks, k)
    requires ReasonsShape(rest, checks, k + 1)
    ensures ReasonsShape(head + rest, checks, k)
  {
    JoinOrdered(head, rest, k);
    JoinReasons(head, rest, checks, k);
  }

  lemma JoinOrdered(head: seq<FailureReason>, rest: seq<FailureReason>, k: nat)
    requires |head| <= 1 && (forall i :: 0 <= i < |head| ==> head[i].CheckIndex() == k)
    requires InCheckOrder(rest) && (forall i :: 0 <= i < |rest| ==> k + 1 <= rest[i].CheckIndex())
    ensures InCheckOrder(head + rest)
    ensures forall i :: 0 <= i < |head + rest| ==> k <= (head + rest)[i].CheckIndex()
  {
    if head == [] {
      assert head + rest == rest;
    } else {
      assert head == [head[0]];
      PrependOneOrder(head[0], rest, k);
    }
  }

  lemma JoinReasons(head: seq<FailureReason>, rest: seq<FailureReason>, checks: ValidationChecks, k: nat)
    requires |head| <= 1 && (forall i :: 0 <= i < |head| ==> head[i].CheckIndex() == k)
    requires head != [] <==> CheckFailed(checks, k)
    requires forall i :: 0 <= i < |rest| ==> k + 1 <= rest[i].CheckIndex()
    requires forall c :: k + 1 <= c < 4 ==> (CheckFailed(checks, c) <==> HasReasonFor(rest, c))
    ensures forall c :: k <= c < 4 ==> (CheckFailed(checks, c) <==> HasReasonFor(head + rest, c))
  {
    if head == [] {
      assert head + rest == rest;
      assert !HasReasonFor(rest, k);
    } else {
      var h := head[0];
      assert head == [h];
      PrependOneReasons(h, rest, k);
    }
  }

  lemma PassesIffNoFailedCheck(checks: ValidationChecks)
    ensures Passes(checks) <==> forall k :: 0 <= k < 4 ==> !CheckFailed(checks, k)
  {
    if !Passes(checks) {
      if !checks.amount_match {
        assert CheckFailed(checks, 0);
      } else if checks.receiver_account_match.Some? && !checks.receiver_account_match.value {
        assert CheckFailed(checks, 1);
      } else if checks.receiver_name_match.Some? && !checks.receiver_name_match.value {
        assert CheckFailed(checks, 2);
      } else {
        assert CheckFailed(checks, 3);
      }
    }
  }

  /**
   * What `validateTransaction` returns: the four checks against the method's
   * profile (the empty profile for an unknown method), a pass exactly when no
   * check failed, and one reason per failed check in check order.
   */
  function Verdict(normalized: NormalizedVerifierResponse, expectedAmount: real, paymentMethod: string,
                   profiles: map<string, ReceiverProfile>, config: ValidationConfig, now: int): ValidationResult
  {
    var profile := ProfileFor(profiles, paymentMethod);
    var tolerance, suffixDigits, windowHours :=
      config.amountToleranceETB, config.receiverAccountSuffixDigits, config.timeWindowHours;
    var checks := ChecksFor(normalized, expectedAmount, profile, tolerance, suffixDigits, windowHours, now);
    ValidationResult(
      Passes(checks), checks,
      ReasonsFrom(0, checks, normalized, expectedAmount, profile, tolerance, suffixDigits, windowHours))
  }

  /**
   * The verdict passes exactly when no reason is recorded; there are at most four
   * reasons; each tri-state check is null exactly when the profile lacks its field.
   */
  lemma VerdictSummary(normalized: NormalizedVerifierResponse, expectedAmount: real, paymentMethod: string,
                       profiles: map<string, ReceiverProfile>, config: ValidationConfig, now: int)
    ensures var v := Verdict(normalized, expectedAmount, paymentMethod, profiles, config, now);
      && (v.passed <==> v.failed_reasons == [])
      && |v.failed_reasons| <= 4
      && (v.checks.receiver_account_match.None? <==> !Present(ProfileFor(profiles, paymentMethod).receiver_account))
      && (v.checks.receiver_name_match.None? <==> !Present(ProfileFor(profiles, paymentMethod).receiver_name))
  {
    var profile := ProfileFor(profiles, paymentMethod);
    var tolerance, suffixDigits, windowHours :=
      config.amountToleranceETB, config.receiverAccountSuffixDigits, config.timeWindowHours;
    var checks := ChecksFor(normalized, expectedAmount, profile, tolerance, suffixDigits, windowHours, now);
    var reasons := ReasonsFrom(0, checks, normalized, expectedAmount, profile, tolerance, suffixDigits, windowHours);
    ReasonsFromSpec(0, checks, normalized, expectedAmount, profile, tolerance, suffixDigits, windowHours);
    PassesIffNoFailedCheck(checks);
    if reasons != [] {
      assert HasReasonFor(reasons, reasons[0].CheckIndex());
    }
  }

  /**
   * `validateTransaction`: fills in the checks one at a time, appending a reason
   * after each failed one.
   */
  method ValidateTransaction(normalized: NormalizedVerifierResponse, expectedAmount: real, paymentMethod: string,
                             profiles: map<string, ReceiverProfile>, config: ValidationConfig, now: int)
    returns (result: ValidationResult)
    ensures result == Verdict(normalized, expectedAmount, paymentMethod, profiles, config, now)
    ensures result.passed <==> result.failed_reasons == []
  {
    var profile := ProfileFor(profiles, paymentMethod);
    var tolerance, suffixDigits, windowHours :=
      config.amountToleranceETB, config.receiverAccountSuffixDigits, config.timeWindowHours;

    ghost var final := ChecksFor(normalized, expectedAmount, profile, tolerance, suffixDigits, windowHours, now);
    ghost var p0 := if !final.amount_match then [AmountTooLow(expectedAmount - tolerance, normalized.amount)] else [];
    ghost var p1 := if final.receiver_account_match == Some(false)
            then [WrongAccount(SliceLast(profile.receiver_account.value, suffixDigits),
                               ShownAccount(normalized.receiver_account, suffixDigits))]
            else [];
    ghost var p2 := if final.receiver_name_match == Some(false)
            then [WrongName(profile.receiver_name.value, OrElse(normalized.receiver_name, "none"))]
            else [];
    ghost var p3 := if !final.date_within_window then [DateOutsideWindow(windowHours, normalized.date)] else [];
    var failedReasons: seq<FailureReason> := [];
    var checks := ValidationChecks(
      amount_match := false, receiver_account_match := None, receiver_name_match := None, date_within_window := false);

    // 1. amount
    checks := checks.(amount_match := AmountsMatch(normalized.amount, expectedAmount, tolerance));
    if !checks.amount_match {
      failedReasons := failedReasons + [AmountTooLow(expectedAmount - tolerance, normalized.amount)];
    }

    assert failedReasons == p0 && checks == ValidationChecks(final.amount_match, None, None, false);
    // 2. receiver account, only when the profile names one
    if Present(profile.receiver_account) {
      var accountMatch := AccountsMatch(normalized.receiver_account, profile.receiver_account, suffixDigits);
      checks := checks.(receiver_account_match := accountMatch);
      if checks.receiver_account_match == Some(false) {
        var expectedSuffix := SliceLast(profile.receiver_account.value, suffixDigits);
        var actualValue := ShownAccount(normalized.receiver_account, suffixDigits);
        failedReasons := failedReasons + [WrongAccount(expectedSuffix, actualValue)];
      }
    }

    assert failedReasons == p0 + p1
      && checks == ValidationChecks(final.amount_match, final.receiver_account_match, None, false);
    // 3. receiver name, only when the profile names one
    if Present(profile.receiver_name) {
      checks := checks.(receiver_name_match := NamesMatch(normalized.receiver_name, profile.receiver_name));
      if checks.receiver_name_match == Some(false) {
        failedReasons := failedReasons + [WrongName(profile.receiver_name.value, OrElse(normalized.receiver_name, "none"))];
      }
    }

    assert failedReasons == p0 + p1 + p2
      && checks == ValidationChecks(final.amount_match, final.receiver_account_match, final.receiver_name_match, false);
    // 4. date window
    checks := checks.(date_within_window := DateWithinWindow(normalized.date, windowHours, now));
    if !checks.date_within_window {
      failedReasons := failedReasons + [DateOutsideWindow(windowHours, normalized.date)];
    }

    var passed :=
      && checks.amount_match
      && checks.date_within_window
      && (checks.receiver_account_match == None || checks.receiver_account_match == Some(true))
      && (checks.receiver_name_match == None || checks.receiver_name_match == Some(true));

    assert failedReasons == p0 + p1 + p2 + p3;
    assert checks == final;
    assert failedReasons == ReasonsFrom(0, final, normalized, expectedAmount, profile, tolerance, suffixDigits, windowHours) by {
      ReasonsFromUnrolled(final, normalized, expectedAmount, profile, tolerance, suffixDigits, windowHours);
    }
    assert passed == Passes(final);
    result := ValidationResult(passed, checks, failedReasons);
    VerdictSummary(normalized, expectedAmount, paymentMethod, profiles, config, now);
  }

  /** The reasons written out check by check, in the shape `validateTransaction` builds them. */
  lemma ReasonsFromUnrolled(checks: ValidationChecks, normalized: NormalizedVerifierResponse, expectedAmount: real,
                            profile: ReceiverProfile, tolerance: real, suffixDigits: nat, windowHours: nat)
    requires ChecksFitProfile(checks, profile)
    ensures ReasonsFrom(0, checks, normalized, expectedAmount, profile, tolerance, suffixDigits, windowHours)
      == (if !checks.amount_match then [AmountTooLow(expectedAmount - tolerance, normalized.amount)] else [])
         + (if checks.receiver_account_match == Some(false)
            then [WrongAccount(SliceLast(profile.receiver_account.value, suffixDigits),
                               ShownAccount(normalized.receiver_account, suffixDigits))]
            else [])
         + (if checks.receiver_name_match == Some(false)
            then [WrongName(profile.receiver_name.value, OrElse(normalized.receiver_name, "none"))]
            else [])
         + (if !checks.date_within_window then [DateOutsideWindow(windowHours, normalized.date)] else [])
  {
    var r0 := ReasonAt(0, checks, normalized, expectedAmount, profile, tolerance, suffixDigits, windowHours);
    var r1 := ReasonAt(1, checks, normalized, expectedAmount, profile, tolerance, suffixDigits, windowHours);
    var r2 := ReasonAt(2, checks, normalized, expectedAmount, profile, tolerance, suffixDigits, windowHours);
    var r3 := ReasonAt(3, checks, normalized, expectedAmount, profile, tolerance, suffixDigits, windowHours);
    assert ReasonsFrom(0, checks, normalized, expectedAmount, profile, tolerance, suffixDigits, windowHours)
        == r0 + (r1 + (r2 + (r3 + [])));
    assert r3 + [] == r3;
    assert r0 + (r1 + (r2 + r3)) == r0 + r1 + r2 + r3;
  }

  /** The reasons are exactly the failed checks, one each, in the order amount, account, name, date. */
  lemma VerdictReasons(normalized: NormalizedVerifierResponse, expectedAmount: real, paymentMethod: string,
                       profiles: map<string, ReceiverProfile>, config: ValidationConfig, now: int)
    ensures var v := Verdict(normalized, expectedAmount, paymentMethod, profiles, config, now);
      && InCheckOrder(v.failed_reasons)
      && (forall k :: 0 <= k < 4 ==> (CheckFailed(v.checks, k) <==> HasReasonFor(v.failed_reasons, k)))
  {
    var profile := ProfileFor(profiles, paymentMethod);
    var tolerance, suffixDigits, windowHours :=
      config.amountToleranceETB, config.receiverAccountSuffixDigits, config.timeWindowHours;
    var checks := ChecksFor(normalized, expectedAmount, profile, tolerance, suffixDigits, windowHours, now);
    ReasonsFromSpec(0, checks, normalized, expectedAmount, profile, tolerance, suffixDigits, windowHours);
  }

  /** All four checks run: each one is the value of its own rule, whatever the others give. */
  lemma VerdictRunsEveryCheck(normalized: NormalizedVerifierResponse, expectedAmount: real, paymentMethod: string,
                              profiles: map<string, ReceiverProfile>, config: ValidationConfig, now: int)
    ensures var v := Verdict(normalized, expectedAmount, paymentMethod, profiles, config, now);
      var profile := ProfileFor(profiles, paymentMethod);
      && v.checks.amount_match == AmountsMatch(normalized.amount, expectedAmount, config.amountToleranceETB)
      && v.checks.date_within_window == DateWithinWindow(normalized.date, config.timeWindowHours, now)
      && v.checks.receiver_account_match
         == AccountsMatchSpec(normalized.receiver_account, profile.receiver_account, config.receiverAccountSuffixDigits)
      && v.checks.receiver_name_match == NamesMatch(normalized.receiver_name, profile.receiver_name)
  {
  }

  /** An unknown payment method is checked against the empty profile: account and name are both null. */
  lemma VerdictUnknownMethod(normalized: NormalizedVerifierResponse, expectedAmount: real, paymentMethod: string,
                             profiles: map<string, ReceiverProfile>, config: ValidationConfig, now: int)
    requires paymentMethod !in profiles
    ensures var v := Verdict(normalized, expectedAmount, paymentMethod, profiles, config, now);
      v.checks.receiver_account_match == None && v.checks.receiver_name_match == None
      && (v.passed <==> v.checks.amount_match && v.checks.date_within_window)
  {
  }

  /** With the shipped table, CBE and Abyssinia never get a name verdict, and always get an account one. */
  lemma VerdictAccountOnlyMethods(normalized: NormalizedVerifierResponse, expectedAmount: real, paymentMethod: string,
                                  config: ValidationConfig, now: int)
    requires paymentMethod == "cbe" || paymentMethod == "abyssinia"
    ensures var v := Verdict(normalized, expectedAmount, paymentMethod, Profiles, config, now);
      v.checks.receiver_name_match == None && v.checks.receiver_account_match.Some?
  {
    AccountOnlyProfiles(paymentMethod);
  }

  /** With the shipped table, Dashen and CBE Birr never get an account verdict, and always get a name one. */
  lemma VerdictNameOnlyMethods(normalized: NormalizedVerifierResponse, expectedAmount: real, paymentMethod: string,
                               config: ValidationConfig, now: int)
    requires paymentMethod == "dashen" || paymentMethod == "cbebirr"
    ensures var v := Verdict(normalized, expectedAmount, paymentMethod, Profiles, config, now);
      v.checks.receiver_account_match == None && v.checks.receiver_name_match.Some?
  {
    NameOnlyProfiles(paymentMethod);
  }

  /** With the shipped table, Telebirr gets both an account and a name verdict. */
  lemma VerdictTelebirrChecksBoth(normalized: NormalizedVerifierResponse, expectedAmount: real,
                                  config: ValidationConfig, now: int)
    ensures var v := Verdict(normalized, expectedAmount, "telebirr", Profiles, config, now);
      v.checks.receiver_account_match.Some? && v.checks.receiver_name_match.Some?
  {
    TelebirrProfileHasBoth();
  }

  /** `strictNameMatch` is never read: flipping it leaves every verdict unchanged. */
  lemma VerdictIgnoresStrictNameMatch(normalized: NormalizedVerifierResponse, expectedAmount: real, paymentMethod: string,
                                      profiles: map<string, ReceiverProfile>, config: ValidationConfig, now: int, strict: bool)
    ensures Verdict(normalized, expectedAmount, paymentMethod, profiles, config.(strictNameMatch := strict), now)
         == Verdict(normalized, expectedAmount, paymentMethod, profiles, config, now)
  {
  }

  // ------------------------------------------------------------ reason text

  function DigitChar(d: nat): (c: char)
    requires d < 10
    ensures IsDigit(c) && Normalizer.DigitValue(c) == d
  {
    ('0' as int + d) as char
  }

  /** A non-negative integer in decimal, as a template literal shows it. */
  function NatText(n: nat): (s: string)
    ensures s != [] && AllDigits(s)
    ensures Normalizer.DigitsValue(s) == n
    ensures |s| == 1 || s[0] != '0'
  {
    var last := [DigitChar(n % 10)];
    if n < 10 then last
    else
      var s := NatText(n / 10) + last;
      assert s[..|s| - 1] == NatText(n / 10);
      s
  }

  /**
   * The message `validateTransaction` pushes for a reason; real numbers and dates
   * are shown by the given renderings.
   */
  function ReasonText(r: FailureReason, showNumber: real -> string, showDate: Timestamp -> string): string
  {
    match r
    case AmountTooLow(minimum, found) =>
      "Amount too low: expected min " + showNumber(minimum) + " ETB, but found " + showNumber(found) + " ETB"
    case WrongAccount(expectedSuffix, actualValue) =>
      "Wrong account: expected suffix " + expectedSuffix + ", but found " + actualValue
    case WrongName(expectedName, foundName) =>
      "Wrong receiver name: expected \"" + expectedName + "\", but found \"" + foundName + "\""
    case DateOutsideWindow(windowHours, date) =>
      "Transaction date outside allowed window (Â±" + NatText(windowHours) + "h): " + showDate(date)
  }

  /** The first character of each message and its seventh, which tell the four apart. */
  function ReasonMarks(r: FailureReason): (char, char) {
    match r
    case AmountTooLow(_, _) => ('A', ' ')
    case WrongAccount(_, _) => ('W', 'a')
    case WrongName(_, _) => ('W', 'r')
    case DateOutsideWindow(_, _) => ('T', 'c')
  }

  /** Helper for ReasonTextMarks: indexing into the fixed head of a message. */
  lemma MarksOf(lead: string, rest: string)
    requires |lead| > 6
    ensures (lead + rest)[0] == lead[0] && (lead + rest)[6] == lead[6]
  {
  }

  /** Helper for ReasonTextMarks: the marks of one kind of message. */
  lemma AmountTextMarks(minimum: real, found: real, showNumber: real -> string, showDate: Timestamp -> string)
    ensures var t := ReasonText(AmountTooLow(minimum, found), showNumber, showDate);
      |t| > 6 && (t[0], t[6]) == ('A', ' ')
  {
    var s0 := "Amount too low: expected min ";
    var s1 := s0 + showNumber(minimum);
    var s2 := s1 + " ETB, but found ";
    var s3 := s2 + showNumber(found);
    MarksOf(s0, showNumber(minimum));
    MarksOf(s1, " ETB, but found ");
    MarksOf(s2, showNumber(found));
    MarksOf(s3, " ETB");
  }

  /** Helper for ReasonTextMarks: the marks of one kind of message. */
  lemma AccountTextMarks(expectedSuffix: string, actualValue: string, showNumber: real -> string, showDate: Timestamp -> string)
    ensures var t := ReasonText(WrongAccount(expectedSuffix, actualValue), showNumber, showDate);
      |t| > 6 && (t[0], t[6]) == ('W', 'a')
  {
    var s0 := "Wrong account: expected suffix ";
    var s1 := s0 + expectedSuffix;
    var s2 := s1 + ", but found ";
    MarksOf(s0, expectedSuffix);
    MarksOf(s1, ", but found ");
    MarksOf(s2, actualValue);
  }

  /** Helper for ReasonTextMarks: the marks of one kind of message. */
  lemma NameTextMarks(expectedName: string, foundName: string, showNumber: real -> string, showDate: Timestamp -> string)
    ensures var t := ReasonText(WrongName(expectedName, foundName), showNumber, showDate);
      |t| > 6 && (t[0], t[6]) == ('W', 'r')
  {
    var s0 := "Wrong receiver name: expected \"";
    var s1 := s0 + expectedName;
    var s2 := s1 + "\", but found \"";
    var s3 := s2 + foundName;
    MarksOf(s0, expectedName);
    MarksOf(s1, "\", but found \"");
    MarksOf(s2, foundName);
    MarksOf(s3, "\"");
  }

  /** Helper for ReasonTextMarks: the marks of one kind of message. */
  lemma DateTextMarks(windowHours: nat, date: Timestamp, showNumber: real -> string, showDate: Timestamp -> string)
    ensures var t := ReasonText(DateOutsideWindow(windowHours, date), showNumber, showDate);
      |t| > 6 && (t[0], t[6]) == ('T', 'c')
  {
    var s0 := "Transaction date outside allowed window (Â±";
    var s1 := s0 + NatText(windowHours);
    var s2 := s1 + "h): ";
    MarksOf(s0, NatText(windowHours));
    MarksOf(s1, "h): ");
    MarksOf(s2, showDate(date));
  }

  /** Helper for ReasonTextNamesItsCheck: the first and seventh characters of every message identify its kind. */
  lemma ReasonTextMarks(r: FailureReason, showNumber: real -> string, showDate: Timestamp -> string)
    ensures var t := ReasonText(r, showNumber, showDate);
      |t| > 6 && (t[0], t[6]) == ReasonMarks(r)
  {
    match r
    case AmountTooLow(minimum, found) => AmountTextMarks(minimum, found, showNumber, showDate);
    case WrongAccount(expectedSuffix, actualValue) => AccountTextMarks(expectedSuffix, actualValue, showNumber, showDate);
    case WrongName(expectedName, foundName) => NameTextMarks(expectedName, foundName, showNumber, showDate);
    case DateOutsideWindow(windowHours, date) => DateTextMarks(windowHours, date, showNumber, showDate);
  }

  /** Distinct message heads: the text of a reason tells which check failed. */
  lemma ReasonTextNamesItsCheck(r1: FailureReason, r2: FailureReason, showNumber: real -> string, showDate: Timestamp -> string)
    requires ReasonText(r1, showNumber, showDate) == ReasonText(r2, showNumber, showDate)
    ensures r1.CheckIndex() == r2.CheckIndex()
  {
    ReasonTextMarks(r1, showNumber, showDate);
    ReasonTextMarks(r2, showNumber, showDate);
  }
}
