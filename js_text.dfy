/**
 * The JavaScript string built-ins the core relies on: the `\s` character class
 * (the same set `trim` removes), `toLowerCase`, `trim`, `replace(/\s+/g, ' ')`,
 * `includes`, `slice(-n)` and the truthiness of an optional string.
 */
module JsText {
  import opened Optional

  /** ECMAScript WhiteSpace and LineTerminator code points: what `\s` matches and `trim` removes. */
  predicate IsWhitespace(c: char) {
    c == '\t' || c == '\n' || c == '\U{000B}' || c == '\U{000C}' || c == '\r' || c == ' '
    || c == '\U{00A0}' || c == '\U{1680}' || ('\U{2000}' <= c <= '\U{200A}')
    || c == '\U{2028}' || c == '\U{2029}' || c == '\U{202F}' || c == '\U{205F}'
    || c == '\U{3000}' || c == '\U{FEFF}'
  }

  /** `\d` without the `u` flag: an ASCII decimal digit. */
  predicate IsDigit(c: char) {
    '0' <= c <= '9'
  }

  predicate AllDigits(s: string) {
    forall i :: 0 <= i < |s| ==> IsDigit(s[i])
  }

  /** `toLowerCase` on one character, restricted to the ASCII letters. */
  function LowerChar(c: char): (r: char)
    ensures 'A' <= c <= 'Z' ==> 'a' <= r <= 'z'
    ensures !('A' <= c <= 'Z') ==> r == c
    ensures !('A' <= r <= 'Z')
    ensures 'A' <= c <= 'Z' ==> r as int - 'a' as int == c as int - 'A' as int
  {
    if 'A' <= c <= 'Z' then (c as int + 32) as char else c
  }

  /** `s.toLowerCase()`, character by character. */
  function ToLower(s: string): (r: string)
    ensures |r| == |s|
    ensures forall i :: 0 <= i < |s| ==> r[i] == LowerChar(s[i])
  {
    if s == [] then [] else [LowerChar(s[0])] + ToLower(s[1..])
  }

  /** Lower-casing a concatenation lower-cases each part. */
  lemma ToLowerAppend(a: string, b: string)
    ensures ToLower(a + b) == ToLower(a) + ToLower(b)
  {
    var l := ToLower(a + b);
    var r := ToLower(a) + ToLower(b);
    forall i | 0 <= i < |l| ensures l[i] == r[i] {
      if i < |a| {
        assert (a + b)[i] == a[i];
      } else {
        assert (a + b)[i] == b[i - |a|];
      }
    }
  }

  /** Lower-casing neither makes nor removes whitespace. */
  lemma LowerCharWhitespace(c: char)
    ensures IsWhitespace(LowerChar(c)) <==> IsWhitespace(c)
  {
  }

  /** JavaScript truthiness of a `string | undefined`: present and not empty. */
  predicate Present(o: Option<string>) {
    o.Some? && o.value != ""
  }

  /** `x || undefined`: an empty string becomes absent. */
  function OrAbsent(o: Option<string>): (r: Option<string>)
    ensures r.Some? <==> Present(o)
    ensures r.Some? ==> r == o
  {
    if Present(o) then o else None
  }

  /** `x || fallback` for an optional string. */
  function OrElse(o: Option<string>, fallback: string): (r: string)
    ensures Present(o) ==> r == o.value
    ensures !Present(o) ==> r == fallback
  {
    if Present(o) then o.value else fallback
  }

  function Min(a: int, b: int): int {
    if a <= b then a else b
  }

  /** Drops the leading whitespace. */
  function TrimStart(s: string): (r: string)
    ensures |r| <= |s| && r == s[|s| - |r|..]
    ensures r == [] || !IsWhitespace(r[0])
    ensures forall i :: 0 <= i < |s| - |r| ==> IsWhitespace(s[i])
  {
    if s != [] && IsWhitespace(s[0]) then TrimStart(s[1..]) else s
  }

  /** Drops the trailing whitespace. */
  function TrimEnd(s: string): (r: string)
    ensures |r| <= |s| && r == s[..|r|]
    ensures r == [] || !IsWhitespace(r[|r| - 1])
    ensures forall i :: |r| <= i < |s| ==> IsWhitespace(s[i])
  {
    if s != [] && IsWhitespace(s[|s| - 1]) then TrimEnd(s[..|s| - 1]) else s
  }

  /** `s.trim()`. */
  function Trim(s: string): (r: string)
    ensures |r| <= |s|
  {
    TrimEnd(TrimStart(s))
  }

  /**
   * What `trim()` leaves neither starts nor ends with whitespace, and text that
   * already does neither is left as it is.
   */
  lemma TrimTrimmed(s: string)
    ensures Trim(s) == [] || (!IsWhitespace(Trim(s)[0]) && !IsWhitespace(Trim(s)[|Trim(s)| - 1]))
    ensures s == [] || (!IsWhitespace(s[0]) && !IsWhitespace(s[|s| - 1])) ==> Trim(s) == s
  {
    var t := TrimStart(s);
    var e := TrimEnd(t);
    if e != [] {
      assert e[0] == t[0];
    }
    if s != [] && !IsWhitespace(s[0]) && !IsWhitespace(s[|s| - 1]) {
      assert t == s;
    }
  }

  /** `s.replace(/\s+/g, ' ')`: every maximal run of whitespace becomes one space. */
  function CollapseWhitespace(s: string): (r: string)
    ensures |r| <= |s|
    decreases |s|
  {
    if s == [] then []
    else if IsWhitespace(s[0]) then [' '] + CollapseWhitespace(TrimStart(s[1..]))
    else [s[0]] + CollapseWhitespace(s[1..])
  }

  /** The only whitespace in `r` is single spaces, never two in a row. */
  ghost predicate SingleSpaced(r: string) {
    && (forall i :: 0 <= i < |r| && IsWhitespace(r[i]) ==> r[i] == ' ')
    && (forall i :: 0 < i < |r| ==> !(IsWhitespace(r[i - 1]) && IsWhitespace(r[i])))
  }

  /** Collapsing keeps whether the text starts with whitespace, and a non-empty text stays non-empty. */
  lemma CollapseWhitespaceFirst(s: string)
    ensures s != [] ==> CollapseWhitespace(s) != [] && (IsWhitespace(CollapseWhitespace(s)[0]) <==> IsWhitespace(s[0]))
  {
    assert IsWhitespace(' ');
  }

  /** Every character of the collapsed text other than whitespace comes from the input. */
  lemma {:induction false} CollapseWhitespaceKeeps(s: string)
    ensures forall i :: 0 <= i < |CollapseWhitespace(s)| && !IsWhitespace(CollapseWhitespace(s)[i]) ==> CollapseWhitespace(s)[i] in s
    decreases |s|
  {
    if s != [] {
      var t := if IsWhitespace(s[0]) then TrimStart(s[1..]) else s[1..];
      CollapseWhitespaceKeeps(t);
      var rest := CollapseWhitespace(t);
      var r := CollapseWhitespace(s);
      assert r[1..] == rest;
      forall i | 0 < i < |r| && !IsWhitespace(r[i]) ensures r[i] in s {
        assert r[i] == rest[i - 1];
        assert rest[i - 1] in t;
        assert forall x :: x in t ==> x in s;
      }
    }
  }

  /** After collapsing, whitespace is single spaces, never two in a row. */
  lemma {:induction false} CollapseWhitespaceSpaced(s: string)
    ensures SingleSpaced(CollapseWhitespace(s))
    decreases |s|
  {
    if s != [] {
      var t := if IsWhitespace(s[0]) then TrimStart(s[1..]) else s[1..];
      CollapseWhitespaceSpaced(t);
      CollapseWhitespaceFirst(t);
      var rest := CollapseWhitespace(t);
      var r := CollapseWhitespace(s);
      assert r[1..] == rest;
      assert IsWhitespace(r[0]) ==> r[0] == ' ';
      forall i | 0 < i < |r| ensures !(IsWhitespace(r[i - 1]) && IsWhitespace(r[i])) {
        if i > 1 {
          assert r[i - 1] == rest[i - 2] && r[i] == rest[i - 1];
        } else if IsWhitespace(s[0]) {
          assert t == [] || !IsWhitespace(t[0]);
          assert r[1] == rest[0];
        }
      }
      forall i | 0 < i < |r| && IsWhitespace(r[i]) ensures r[i] == ' ' {
        assert r[i] == rest[i - 1];
      }
    }
  }

  /** A run made only of whitespace. */
  ghost predicate AllWhitespace(w: string) {
    forall i :: 0 <= i < |w| ==> IsWhitespace(w[i])
  }

  /** Trimming the start removes a whitespace run in front of text that does not start with whitespace. */
  lemma {:induction false} TrimStartRun(w: string, y: string)
    requires AllWhitespace(w)
    requires y == [] || !IsWhitespace(y[0])
    ensures TrimStart(w + y) == y
    decreases |w|
  {
    if w == [] {
      assert w + y == y;
    } else {
      assert (w + y)[0] == w[0];
      assert (w + y)[1..] == w[1..] + y;
      TrimStartRun(w[1..], y);
    }
  }

  /** Helper for CollapseWhitespaceRun: trimming the start of text whose own start is not all whitespace never reaches what follows it. */
  lemma {:induction false} TrimStartAppend(a: string, b: string)
    requires TrimStart(a) != []
    ensures TrimStart(a + b) == TrimStart(a) + b
    decreases |a|
  {
    HeadTail(a, b);
    if IsWhitespace(a[0]) {
      TrimStartAppend(a[1..], b);
      TrimStartWhitespaceHead(a + b);
      TrimStartWhitespaceHead(a);
    }
  }

  /** Helper for CollapseWhitespaceRun: the head and the tail of a concatenation whose first part is not empty. */
  lemma HeadTail(a: string, b: string)
    requires a != []
    ensures (a + b)[0] == a[0] && (a + b)[1..] == a[1..] + b
  {
  }

  /** Helper for CollapseWhitespaceRun: trimming the start skips a leading whitespace character. */
  lemma TrimStartWhitespaceHead(s: string)
    requires s != [] && IsWhitespace(s[0])
    ensures TrimStart(s) == TrimStart(s[1..])
  {
  }

  /** Helper for CollapseWhitespaceRun: trimming the start of text that ends in another character keeps that last character. */
  lemma {:induction false} TrimStartKeepsLast(a: string)
    requires a != [] && !IsWhitespace(a[|a| - 1])
    ensures TrimStart(a) != [] && TrimStart(a)[|TrimStart(a)| - 1] == a[|a| - 1]
    decreases |a|
  {
    if IsWhitespace(a[0]) {
      assert a[1..][|a| - 2] == a[|a| - 1];
      TrimStartKeepsLast(a[1..]);
    }
  }

  /** A character other than whitespace is copied and collapsing goes on after it. */
  lemma CollapseWhitespaceCons(c: char, y: string)
    requires !IsWhitespace(c)
    ensures CollapseWhitespace([c] + y) == [c] + CollapseWhitespace(y)
  {
    assert ([c] + y)[1..] == y;
  }

  /** Helper for CollapseWhitespaceRun: the head and the tail of a three-part text whose first part is not empty. */
  lemma SplitHead(x: string, w: string, y: string)
    requires x != []
    ensures (x + w + y)[0] == x[0] && (x + w + y)[1..] == x[1..] + w + y
  {
    assert x + w + y == [x[0]] + (x[1..] + w + y);
  }

  /** Helper for CollapseWhitespaceRun: nothing in front. */
  lemma EmptyFront(w: string, y: string)
    ensures [] + w + y == w + y
  {
  }

  /** Helper for CollapseWhitespaceRun: nothing collapsed in front of a space. */
  lemma CollapseEmptyFront(z: string)
    ensures CollapseWhitespace([]) + " " + z == " " + z
  {
    assert CollapseWhitespace([]) == [];
  }

  /** Helper for CollapseWhitespaceRun: regrouping three parts. */
  lemma Assoc(a: string, b: string, c: string)
    ensures a + b + c == a + (b + c)
  {
  }

  /** Helper for CollapseWhitespaceRun: regrouping four parts. */
  lemma Regroup(a: string, b: string, c: string, d: string)
    ensures a + (b + c + d) == a + b + c + d
  {
  }

  /** Helper for CollapseWhitespaceRun: text led by whitespace: one space, then the rest collapsed after its leading whitespace. */
  lemma CollapseWhitespaceSpaceHead(s: string)
    requires s != [] && IsWhitespace(s[0])
    ensures CollapseWhitespace(s) == " " + CollapseWhitespace(TrimStart(s[1..]))
  {
  }

  /** Helper for CollapseWhitespaceRun: text led by another character: that character, then the rest collapsed. */
  lemma CollapseWhitespaceCharHead(s: string)
    requires s != [] && !IsWhitespace(s[0])
    ensures CollapseWhitespace(s) == [s[0]] + CollapseWhitespace(s[1..])
  {
  }

  /** Helper for CollapseWhitespaceRun: a leading whitespace run becomes one space. */
  lemma CollapseWhitespaceLead(w: string, y: string)
    requires w != [] && AllWhitespace(w)
    requires y == [] || !IsWhitespace(y[0])
    ensures CollapseWhitespace(w + y) == " " + CollapseWhitespace(y)
  {
    assert IsWhitespace(w[0]);
    assert (w + y)[0] == w[0] && (w + y)[1..] == w[1..] + y;
    TrimStartRun(w[1..], y);
  }

  /** Helper for CollapseWhitespaceRun: its case where nothing precedes the run. */
  lemma CollapseWhitespaceRunEmpty(w: string, y: string)
    requires w != [] && AllWhitespace(w)
    requires y == [] || !IsWhitespace(y[0])
    ensures CollapseWhitespace([] + w + y) == CollapseWhitespace([]) + " " + CollapseWhitespace(y)
  {
    EmptyFront(w, y);
    CollapseWhitespaceLead(w, y);
    CollapseEmptyFront(CollapseWhitespace(y));
  }

  /**
   * A maximal whitespace run, with text on each side that does not touch it with
   * whitespace, becomes one space and both sides are collapsed on their own.
   */
  lemma {:induction false} CollapseWhitespaceRun(x: string, w: string, y: string)
    requires x == [] || !IsWhitespace(x[|x| - 1])
    requires w != [] && AllWhitespace(w)
    requires y == [] || !IsWhitespace(y[0])
    ensures CollapseWhitespace(x + w + y) == CollapseWhitespace(x) + " " + CollapseWhitespace(y)
    decreases |x|, 1
  {
    if x == [] {
      CollapseWhitespaceRunEmpty(w, y);
    } else if IsWhitespace(x[0]) {
      CollapseWhitespaceRunAfterSpace(x, w, y);
    } else {
      CollapseWhitespaceRunAfterChar(x, w, y);
    }
  }

  /** Helper for CollapseWhitespaceRun: its step for text before the run that starts with whitespace. */
  lemma {:induction false} CollapseWhitespaceRunAfterSpace(x: string, w: string, y: string)
    requires x != [] && IsWhitespace(x[0]) && !IsWhitespace(x[|x| - 1])
    requires w != [] && AllWhitespace(w)
    requires y == [] || !IsWhitespace(y[0])
    ensures CollapseWhitespace(x + w + y) == CollapseWhitespace(x) + " " + CollapseWhitespace(y)
    decreases |x|, 0
  {
    var x' := x[1..];
    assert x' != [] && x'[|x'| - 1] == x[|x| - 1];
    TrimStartKeepsLast(x');
    var x'' := TrimStart(x');
    SplitHead(x, w, y);
    Assoc(x', w, y);
    TrimStartAppend(x', w + y);
    Assoc(x'', w, y);
    CollapseWhitespaceSpaceHead(x + w + y);
    CollapseWhitespaceSpaceHead(x);
    CollapseWhitespaceRun(x'', w, y);
    Regroup(" ", CollapseWhitespace(x''), " ", CollapseWhitespace(y));
  }

  /** Helper for CollapseWhitespaceRun: its step for text before the run that starts with another character. */
  lemma {:induction false} CollapseWhitespaceRunAfterChar(x: string, w: string, y: string)
    requires x != [] && !IsWhitespace(x[0]) && !IsWhitespace(x[|x| - 1])
    requires w != [] && AllWhitespace(w)
    requires y == [] || !IsWhitespace(y[0])
    ensures CollapseWhitespace(x + w + y) == CollapseWhitespace(x) + " " + CollapseWhitespace(y)
    decreases |x|, 0
  {
    SplitHead(x, w, y);
    assert x[1..] == [] || x[1..][|x| - 2] == x[|x| - 1];
    CollapseWhitespaceCharHead(x + w + y);
    CollapseWhitespaceCharHead(x);
    CollapseWhitespaceRun(x[1..], w, y);
    Regroup([x[0]], CollapseWhitespace(x[1..]), " ", CollapseWhitespace(y));
  }

  /** `t` occurs in `s` starting at index `i`. */
  ghost predicate OccursAt(s: string, t: string, i: int) {
    0 <= i && i + |t| <= |s| && s[i..i + |t|] == t
  }

  /** `s.includes(t)`, as a left-to-right scan. */
  function Includes(s: string, t: string): (r: bool)
    ensures t == [] ==> r
    ensures r ==> |t| <= |s|
    decreases |s|
  {
    if |t| > |s| then false
    else if s[..|t|] == t then true
    else Includes(s[1..], t)
  }

  /** The scan finds `t` exactly when `t` occurs somewhere in `s`. */
  lemma {:induction false} IncludesIff(s: string, t: string)
    ensures Includes(s, t) <==> exists i :: OccursAt(s, t, i)
    decreases |s|
  {
    if |t| > |s| {
    } else if s[..|t|] == t {
      assert OccursAt(s, t, 0);
    } else {
      IncludesIff(s[1..], t);
      if Includes(s[1..], t) {
        var i :| OccursAt(s[1..], t, i);
        assert s[1..][i..i + |t|] == s[i + 1..i + 1 + |t|];
        assert OccursAt(s, t, i + 1);
      }
      if exists i :: OccursAt(s, t, i) {
        var i :| OccursAt(s, t, i);
        assert i != 0;
        assert s[1..][i - 1..i - 1 + |t|] == s[i..i + |t|];
        assert OccursAt(s[1..], t, i - 1);
      }
    }
  }

  /** Every string includes itself. */
  lemma IncludesSelf(s: string)
    ensures Includes(s, s)
  {
    assert s[..|s|] == s;
  }

  /** `s.slice(-n)`: the last `min(n, |s|)` characters, or all of `s` when `n` is 0 (`-0` is 0). */
  function SliceLast(s: string, n: nat): (r: string)
    ensures n == 0 ==> r == s
    ensures n > 0 ==> |r| == Min(n, |s|)
    ensures r == s[|s| - |r|..]
  {
    if n == 0 then s else s[|s| - Min(n, |s|)..]
  }
}
