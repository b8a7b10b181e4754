/**
 * Text primitives the content script relies on: the base-ten rendering of a non-negative
 * integer inside a template literal (`${i + 1}`), `String.prototype.trim`, and the
 * whitespace-collapsing `replace` of a message's text (both as intended and as written).
 */
module Text {

  predicate IsDigit(c: char) {
    '0' <= c <= '9'
  }

  predicate AllDigits(s: string) {
    forall i :: 0 <= i < |s| ==> IsDigit(s[i])
  }

  function Digit(d: nat): (c: char)
    requires d < 10
    ensures IsDigit(c) && DigitValue(c) == d
  {
    ('0' as int + d) as char
  }

  function DigitValue(c: char): (d: nat)
    requires IsDigit(c)
    ensures d < 10
  {
    c as int - '0' as int
  }

  /** `n` written in base ten without leading zeros, as a template literal renders it. */
  function Decimal(n: nat): (s: string)
    ensures |s| >= 1 && AllDigits(s)
    ensures s[0] == '0' <==> n == 0
    ensures n == 0 ==> s == "0"
    decreases n
  {
    if n < 10 then [Digit(n)] else Decimal(n / 10) + [Digit(n % 10)]
  }

  /** The number a string of decimal digits denotes (the inverse of Decimal). */
  function DigitsValue(s: string): nat
    requires AllDigits(s)
  {
    if s == [] then 0 else DigitsValue(s[..|s| - 1]) * 10 + DigitValue(s[|s| - 1])
  }

  lemma {:induction false} DecimalRoundTrip(n: nat)
    ensures DigitsValue(Decimal(n)) == n
    decreases n
  {
    if n >= 10 {
      var s := Decimal(n);
      assert s[..|s| - 1] == Decimal(n / 10);
      DecimalRoundTrip(n / 10);
    }
  }

  /** Distinct numbers are rendered as distinct strings. */
  lemma {:induction false} DecimalInjective(m: nat, n: nat)
    requires Decimal(m) == Decimal(n)
    ensures m == n
  {
    DecimalRoundTrip(m);
    DecimalRoundTrip(n);
  }

  /**
   * The characters `String.prototype.trim` removes, which are also the characters the
   * regular-expression class `\s` matches: the WhiteSpace and LineTerminator code points
   * of ECMA-262 (tab, vertical tab, form feed, space, no-break space, byte order mark, the
   * Zs category, line feed, carriage return, U+2028 and U+2029).
   */
  predicate IsTrimmable(c: char) {
    || c == '\t' || c == '\n' || c == '\U{B}' || c == '\U{C}' || c == '\r' || c == ' '
    || c == '\U{A0}' || c == '\U{1680}' || ('\U{2000}' <= c <= '\U{200A}')
    || c == '\U{2028}' || c == '\U{2029}' || c == '\U{202F}' || c == '\U{205F}'
    || c == '\U{3000}' || c == '\U{FEFF}'
  }

  /** How many whitespace characters `s` starts with. */
  function Leading(s: string): (n: nat)
    ensures n <= |s|
    ensures forall i :: 0 <= i < n ==> IsTrimmable(s[i])
    ensures n < |s| ==> !IsTrimmable(s[n])
  {
    if s != [] && IsTrimmable(s[0]) then
      var n := 1 + Leading(s[1..]);
      assert forall i :: 1 <= i < n ==> s[i] == s[1..][i - 1];
      n
    else 0
  }

  /** How many whitespace characters `s` ends with. */
  function Trailing(s: string): (n: nat)
    ensures n <= |s|
    ensures forall i :: |s| - n <= i < |s| ==> IsTrimmable(s[i])
    ensures n < |s| ==> !IsTrimmable(s[|s| - 1 - n])
  {
    if s != [] && IsTrimmable(s[|s| - 1]) then
      var n := 1 + Trailing(s[..|s| - 1]);
      assert forall i :: |s| - n <= i < |s| - 1 ==> s[i] == s[..|s| - 1][i];
      n
    else 0
  }

  /**
   * JavaScript's `s.trim()`: what lies between the leading and the trailing whitespace. It is
   * empty exactly when `s` is all whitespace, and otherwise starts and ends with a character
   * that is not whitespace.
   */
  function Trim(s: string): (r: string)
    ensures |r| <= |s|
    ensures r == [] <==> forall i :: 0 <= i < |s| ==> IsTrimmable(s[i])
    ensures r != [] ==> !IsTrimmable(r[0]) && !IsTrimmable(r[|r| - 1])
  {
    var lead := Leading(s);
    if lead == |s| then []
    else
      var trail := Trailing(s);
      assert !IsTrimmable(s[lead]);
      s[lead..|s| - trail]
  }

  /** Only whitespace lies before and after the trimmed slice. */
  lemma {:induction false} TrimSplit(s: string)
    ensures var k := Leading(s);
      && k + |Trim(s)| <= |s| && Trim(s) == s[k..k + |Trim(s)|]
      && (forall i :: 0 <= i < k ==> IsTrimmable(s[i]))
      && (forall i :: k + |Trim(s)| <= i < |s| ==> IsTrimmable(s[i]))
  {
  }

  /** The characters of `s` that are not whitespace, in order. */
  function NonSpace(s: string): string {
    if s == [] then [] else (if IsTrimmable(s[0]) then [] else [s[0]]) + NonSpace(s[1..])
  }

  lemma {:induction false} NonSpaceAppend(a: string, b: string)
    ensures NonSpace(a + b) == NonSpace(a) + NonSpace(b)
    decreases |a|
  {
    if a != [] {
      assert (a + b)[1..] == a[1..] + b;
      NonSpaceAppend(a[1..], b);
    } else {
      assert a + b == b;
    }
  }

  /** A string of whitespace has no non-whitespace characters, and conversely. */
  lemma {:induction false} NonSpaceEmpty(s: string)
    ensures NonSpace(s) == [] <==> forall i :: 0 <= i < |s| ==> IsTrimmable(s[i])
    decreases |s|
  {
    if s != [] {
      NonSpaceEmpty(s[1..]);
      assert forall i :: 1 <= i < |s| ==> s[i] == s[1..][i - 1];
    }
  }

  /** Trimming removes whitespace only. */
  lemma {:induction false} TrimKeepsText(s: string)
    ensures NonSpace(Trim(s)) == NonSpace(s)
  {
    TrimSplit(s);
    var k, r := Leading(s), Trim(s);
    var pre, post := s[..k], s[k + |r|..];
    assert NonSpace(pre) == [] by {
      NonSpaceEmpty(pre);
    }
    assert NonSpace(post) == [] by {
      assert forall i :: 0 <= i < |post| ==> post[i] == s[k + |r| + i];
      NonSpaceEmpty(post);
    }
    assert s == pre + r + post;
    NonSpaceAppend(pre + r, post);
    NonSpaceAppend(pre, r);
  }

  /** `s.replace(/\s+/g, ' ')`: every maximal run of whitespace becomes a single space. */
  function CollapseSpaces(s: string): (r: string)
    ensures |r| <= |s|
    ensures r == [] <==> s == []
    ensures r != [] ==> (IsTrimmable(r[0]) <==> IsTrimmable(s[0]))
    decreases |s|
  {
    if s == [] then []
    else if IsTrimmable(s[0]) then " " + CollapseSpaces(s[1..][Leading(s[1..])..])
    else [s[0]] + CollapseSpaces(s[1..])
  }

  /** The collapsed string has no whitespace but the space, and never two whitespace characters in a row. */
  lemma {:induction false} CollapseSpacesShape(s: string)
    ensures forall i :: 0 <= i < |CollapseSpaces(s)| && IsTrimmable(CollapseSpaces(s)[i]) ==> CollapseSpaces(s)[i] == ' '
    ensures forall i :: 0 < i < |CollapseSpaces(s)| ==>
      !(IsTrimmable(CollapseSpaces(s)[i - 1]) && IsTrimmable(CollapseSpaces(s)[i]))
    decreases |s|
  {
    if s != [] {
      var tail := if IsTrimmable(s[0]) then s[1..][Leading(s[1..])..] else s[1..];
      CollapseSpacesShape(tail);
      var r := CollapseSpaces(s);
      var t := CollapseSpaces(tail);
      if IsTrimmable(s[0]) {
        assert r == " " + t;
      } else {
        assert r == [s[0]] + t;
      }
      assert forall i :: 0 <= i < |t| && IsTrimmable(t[i]) ==> t[i] == ' ';
      forall i | 0 <= i < |r| && IsTrimmable(r[i])
        ensures r[i] == ' '
      {
        if i > 0 {
          assert r[i] == t[i - 1];
          assert IsTrimmable(t[i - 1]);
          assert t[i - 1] == ' ';
        } else {
          assert IsTrimmable(s[0]);
        }
      }
      forall i | 0 < i < |r|
        ensures !(IsTrimmable(r[i - 1]) && IsTrimmable(r[i]))
      {
        assert r[i] == t[i - 1];
        if i > 1 {
          assert r[i - 1] == t[i - 2];
        } else if IsTrimmable(s[0]) {
          assert !IsTrimmable(t[0]);
        }
      }
    }
  }

  /** Collapsing keeps every character that is not whitespace, in order. */
  lemma {:induction false} CollapseSpacesKeepsText(s: string)
    ensures NonSpace(CollapseSpaces(s)) == NonSpace(s)
    decreases |s|
  {
    if s != [] {
      var r := CollapseSpaces(s);
      if IsTrimmable(s[0]) {
        var n := Leading(s[1..]);
        var gap, rest := s[1..][..n], s[1..][n..];
        assert s[1..] == gap + rest;
        NonSpaceAppend(gap, rest);
        NonSpaceEmpty(gap);
        CollapseSpacesKeepsText(rest);
        assert r[1..] == CollapseSpaces(rest);
      } else {
        CollapseSpacesKeepsText(s[1..]);
        assert r[1..] == CollapseSpaces(s[1..]);
      }
    }
  }

  /** Leading whitespace of a concatenation: it stops inside `x` unless `x` is all whitespace. */
  lemma {:induction false} LeadingAppend(x: string, y: string)
    ensures Leading(x) < |x| ==> Leading(x + y) == Leading(x)
    ensures Leading(x) == |x| ==> Leading(x + y) == |x| + Leading(y)
    decreases |x|
  {
    if x != [] {
      assert (x + y)[0] == x[0] && (x + y)[1..] == x[1..] + y;
      LeadingAppend(x[1..], y);
    } else {
      assert x + y == y;
    }
  }

  /** Trailing whitespace of a concatenation: it stops inside `y` unless `y` is all whitespace. */
  lemma {:induction false} TrailingAppend(x: string, y: string)
    ensures Trailing(y) < |y| ==> Trailing(x + y) == Trailing(y)
    ensures Trailing(y) == |y| ==> Trailing(x + y) == |y| + Trailing(x)
    decreases |y|
  {
    if y != [] {
      var z := x + y;
      assert z[|z| - 1] == y[|y| - 1] && z[..|z| - 1] == x + y[..|y| - 1];
      TrailingAppend(x, y[..|y| - 1]);
    } else {
      assert x + y == x;
    }
  }

  /** A string ending in a non-whitespace character collapses to one that ends in that same character. */
  lemma {:induction false} CollapseSpacesLast(a: string)
    requires a != [] && !IsTrimmable(a[|a| - 1])
    ensures CollapseSpaces(a) != [] && CollapseSpaces(a)[|CollapseSpaces(a)| - 1] == a[|a| - 1]
    decreases |a|
  {
    var u := a[1..];
    if IsTrimmable(a[0]) {
      var k := Leading(u);
      assert u[|u| - 1] == a[|a| - 1];
      CollapseSpacesLast(u[k..]);
    } else if u != [] {
      assert u[|u| - 1] == a[|a| - 1];
      CollapseSpacesLast(u);
    }
  }

  lemma {:induction false} PrependAssoc(p: string, x: string, y: string, z: string)
    requires x == y + z
    ensures p + x == (p + y) + z
  {
  }

  /** One unfolding of `CollapseSpaces` on `a + t` and on `a`, when `a` starts with a word character. */
  lemma {:induction false} CollapseSpacesWordUnfold(a: string, t: string)
    requires a != [] && !IsTrimmable(a[0])
    ensures CollapseSpaces(a + t) == [a[0]] + CollapseSpaces(a[1..] + t)
    ensures CollapseSpaces(a) == [a[0]] + CollapseSpaces(a[1..])
  {
    assert (a + t)[0] == a[0] && (a + t)[1..] == a[1..] + t;
  }

  /** One unfolding of `CollapseSpaces` on `a + t` and on `a`, when `a` starts with whitespace that ends inside `a`. */
  lemma {:induction false} CollapseSpacesSpaceUnfold(a: string, t: string)
    requires a != [] && IsTrimmable(a[0]) && Leading(a[1..]) < |a| - 1
    ensures CollapseSpaces(a + t) == " " + CollapseSpaces(a[1..][Leading(a[1..])..] + t)
    ensures CollapseSpaces(a) == " " + CollapseSpaces(a[1..][Leading(a[1..])..])
  {
    var u := a[1..];
    assert (a + t)[0] == a[0] && (a + t)[1..] == u + t;
    LeadingAppend(u, t);
    assert (u + t)[Leading(u)..] == u[Leading(u)..] + t;
  }

  /** Collapsing distributes over `a + t` when `a` starts with a word character and distributes after it. */
  lemma {:induction false} CollapseSpacesWordStep(a: string, t: string)
    requires a != [] && !IsTrimmable(a[0])
    requires CollapseSpaces(a[1..] + t) == CollapseSpaces(a[1..]) + CollapseSpaces(t)
    ensures CollapseSpaces(a + t) == CollapseSpaces(a) + CollapseSpaces(t)
  {
    CollapseSpacesWordUnfold(a, t);
    PrependAssoc([a[0]], CollapseSpaces(a[1..] + t), CollapseSpaces(a[1..]), CollapseSpaces(t));
  }

  /**
   * Collapsing distributes over `a + t` when `a` starts with whitespace that ends inside `a`,
   * and distributes after that whitespace.
   */
  lemma {:induction false} CollapseSpacesSpaceStep(a: string, t: string)
    requires a != [] && IsTrimmable(a[0]) && Leading(a[1..]) < |a| - 1
    requires var v := a[1..][Leading(a[1..])..];
      CollapseSpaces(v + t) == CollapseSpaces(v) + CollapseSpaces(t)
    ensures CollapseSpaces(a + t) == CollapseSpaces(a) + CollapseSpaces(t)
  {
    CollapseSpacesSpaceUnfold(a, t);
    var v := a[1..][Leading(a[1..])..];
    PrependAssoc(" ", CollapseSpaces(v + t), CollapseSpaces(v), CollapseSpaces(t));
  }

  /** Text ending in a non-whitespace character collapses independently of what follows it. */
  lemma {:induction false} CollapseSpacesAppend(a: string, t: string)
    requires a != [] && !IsTrimmable(a[|a| - 1])
    ensures CollapseSpaces(a + t) == CollapseSpaces(a) + CollapseSpaces(t)
    decreases |a|
  {
    var u := a[1..];
    if IsTrimmable(a[0]) {
      assert u != [] && u[|u| - 1] == a[|a| - 1];
      var v := u[Leading(u)..];
      assert v != [] && v[|v| - 1] == a[|a| - 1];
      CollapseSpacesAppend(v, t);
      CollapseSpacesSpaceStep(a, t);
    } else if u == [] {
      assert a + t == [a[0]] + t && a == [a[0]];
      assert CollapseSpaces([a[0]] + t) == [a[0]] + CollapseSpaces(t) by {
        assert ([a[0]] + t)[1..] == t;
      }
    } else {
      assert u[|u| - 1] == a[|a| - 1];
      CollapseSpacesAppend(u, t);
      CollapseSpacesWordStep(a, t);
    }
  }

  /** A run of whitespace before a word, or before the end, collapses to a single space. */
  lemma {:induction false} CollapseSpacesRun(w: string, b: string)
    requires w != [] && forall i :: 0 <= i < |w| ==> IsTrimmable(w[i])
    requires b == [] || !IsTrimmable(b[0])
    ensures CollapseSpaces(w + b) == " " + CollapseSpaces(b)
  {
    var s := w + b;
    var u := w[1..];
    assert s[1..] == u + b;
    assert forall i :: 0 <= i < |u| ==> IsTrimmable(u[i]) by {
      assert forall i :: 0 <= i < |u| ==> u[i] == w[i + 1];
    }
    assert Leading(u) == |u|;
    LeadingAppend(u, b);
    assert s[1..][|u|..] == b;
  }

  /**
   * Whitespace between two words survives as exactly one space: collapsing text, a run of
   * whitespace and more text is collapsing each side with one space between them.
   */
  lemma {:induction false} CollapseSpacesSeparatesWords(a: string, w: string, b: string)
    requires a != [] && !IsTrimmable(a[|a| - 1])
    requires w != [] && forall i :: 0 <= i < |w| ==> IsTrimmable(w[i])
    requires b == [] || !IsTrimmable(b[0])
    ensures CollapseSpaces(a + w + b) == CollapseSpaces(a) + " " + CollapseSpaces(b)
  {
    assert a + w + b == a + (w + b);
    CollapseSpacesAppend(a, w + b);
    CollapseSpacesRun(w, b);
  }

  /** A string ending in a non-whitespace character has no trailing whitespace, and leading whitespace that stops inside it. */
  lemma {:induction false} EndsInWord(x: string)
    requires x != [] && !IsTrimmable(x[|x| - 1])
    ensures Leading(x) < |x| && Trailing(x) == 0
  {
  }

  /** A string starting with a non-whitespace character has no leading whitespace, and trailing whitespace that stops inside it. */
  lemma {:induction false} StartsWithWord(y: string)
    requires y != [] && !IsTrimmable(y[0])
    ensures Trailing(y) < |y| && Leading(y) == 0
  {
  }

  lemma {:induction false} SliceAroundSpace(x: string, y: string, k: nat, m: nat)
    requires k <= |x| && m <= |y|
    ensures (x + " " + y)[k..|x + " " + y| - m] == x[k..|x| - 0] + " " + y[0..|y| - m]
  {
  }

  /** When `s` is not all whitespace, `Trim(s)` is the slice between the leading and the trailing whitespace. */
  lemma {:induction false} TrimSlice(s: string)
    requires Leading(s) < |s|
    ensures Leading(s) <= |s| - Trailing(s)
    ensures Trim(s) == s[Leading(s)..|s| - Trailing(s)]
  {
    LeadingBeforeTrailing(s);
  }

  lemma {:induction false} LeadingBeforeTrailing(s: string)
    requires Leading(s) < |s|
    ensures Leading(s) <= |s| - Trailing(s)
  {
  }

  /** Trimming two words joined by a space trims the outer ends only. */
  lemma {:induction false} TrimAroundSpace(x: string, y: string)
    requires x != [] && !IsTrimmable(x[|x| - 1])
    requires y != [] && !IsTrimmable(y[0])
    ensures Trim(x + " " + y) == Trim(x) + " " + Trim(y)
  {
    var z := x + " " + y;
    EndsInWord(x);
    StartsWithWord(y);
    var k, m := Leading(x), Trailing(y);
    assert Leading(z) == k by {
      assert z == x + (" " + y);
      LeadingAppend(x, " " + y);
    }
    assert Trailing(z) == m by {
      TrailingAppend(x + " ", y);
    }
    TrimSlice(x);
    TrimSlice(y);
    TrimSlice(z);
    SliceAroundSpace(x, y, k, m);
  }

  /** How many `s` characters `s` starts with. */
  function LeadingS(s: string): (n: nat)
    ensures n <= |s|
  {
    if s != [] && s[0] == 's' then 1 + LeadingS(s[1..]) else 0
  }

  /**
   * What the content script's `replace(/\\s+/g, ' ')` does as written: the doubled backslash
   * makes the pattern a literal backslash followed by one or more `s`, so each such run
   * becomes a space and whitespace is left as it is.
   */
  function ReplaceBackslashS(s: string): (r: string)
    ensures |r| <= |s|
    ensures '\\' !in s ==> r == s
    decreases |s|
  {
    if s == [] then []
    else if |s| >= 2 && s[0] == '\\' && s[1] == 's' then " " + ReplaceBackslashS(s[2..][LeadingS(s[2..])..])
    else
      assert '\\' !in s ==> '\\' !in s[1..];
      [s[0]] + ReplaceBackslashS(s[1..])
  }

  /** Under the pattern as written, two words on two lines keep their line break. */
  lemma {:induction false} ReplaceBackslashSKeepsLineBreaks(x: char, y: char)
    requires x != '\\' && y != '\\'
    ensures ReplaceBackslashS([x, '\n', y]) == [x, '\n', y]
  {
    assert '\\' !in [x, '\n', y];
  }

  /** Under the pattern as written, a typed-out backslash and `s` between two words becomes a space. */
  lemma {:induction false} ReplaceBackslashSReplacesTypedEscape(x: char, y: char)
    requires x != '\\' && y != '\\' && y != 's'
    ensures ReplaceBackslashS([x, '\\', 's', y]) == [x, ' ', y]
  {
    assert ReplaceBackslashS([y]) == [y] by {
      assert [y][1..] == [];
    }
    assert ReplaceBackslashS(['\\', 's', y]) == [' ', y] by {
      assert ['\\', 's', y][2..] == [y];
      assert LeadingS([y]) == 0;
    }
    assert [x, '\\', 's', y][1..] == ['\\', 's', y];
  }

  /** Under `\s+`, the same two words end up on one line. */
  lemma {:induction false} CollapseSpacesJoinsLines(x: char, y: char)
    requires !IsTrimmable(x) && !IsTrimmable(y)
    ensures CollapseSpaces([x, '\n', y]) == [x, ' ', y]
  {
    assert [y][1..] == [];
    assert CollapseSpaces([y]) == [y];
    assert Leading([y]) == 0;
    assert ['\n', y][1..] == [y];
    assert CollapseSpaces(['\n', y]) == [' ', y];
    assert [x, '\n', y][1..] == ['\n', y];
  }
}
