/**
 * What `buildList` puts on screen, kept as strings: the count label next to the heading and
 * one row per item ("{i+1}. {label}"), or the empty-state marker when there are no items.
 * The same line format is used for each line of the Markdown export.
 */
module Render {
  import opened Wrappers
  import opened Text
  import opened Tagger

  /** One rendering of the outline. */
  datatype View = View(countLabel: string, rows: seq<string>, emptyState: bool)

  /** "(n)" for n items: the count between parentheses (`CountRoundTrip` reads the count back). */
  function CountLabel(n: nat): string {
    "(" + Decimal(n) + ")"
  }

  /** The text of the row for the item at 0-based position `i`: digits, a period and a space, then the label. */
  function Row(i: nat, caption: string): string {
    Decimal(i + 1) + ". " + caption
  }

  /** A row is digits, a period and a space, then the label; it holds a line feed exactly when the label does. */
  lemma {:induction false} RowShape(i: nat, caption: string)
    ensures var r := Row(i, caption);
      && |r| > |caption| + 2 && r[|r| - |caption|..] == caption
      && r[|r| - |caption| - 2..|r| - |caption|] == ". " && AllDigits(r[..|r| - |caption| - 2])
      && ('\n' in r <==> '\n' in caption)
  {
    var d := Decimal(i + 1);
    var r := Row(i, caption);
    assert r[..|d|] == d && r[|d|..|d| + 2] == ". " && r[|d| + 2..] == caption;
    assert forall k :: 0 <= k < |d| ==> IsDigit(d[k]);
  }

  /** The count label is a count between parentheses. */
  lemma {:induction false} CountLabelShape(n: nat)
    ensures var r := CountLabel(n);
      |r| >= 3 && r[0] == '(' && r[|r| - 1] == ')' && AllDigits(r[1..|r| - 1])
  {
    var r := CountLabel(n);
    assert r[1..|r| - 1] == Decimal(n);
  }

  /** The row of every item, in order. */
  function Rows(items: seq<Item>): (rows: seq<string>)
    ensures |rows| == |items|
    ensures forall i :: 0 <= i < |rows| ==> rows[i] == Row(i, items[i].caption)
  {
    seq(|items|, i requires 0 <= i < |items| => Row(i, items[i].caption))
  }

  /** Captions on one line give rows on one line. */
  lemma {:induction false} RowsSingleLine(items: seq<Item>)
    requires forall i :: 0 <= i < |items| ==> '\n' !in items[i].caption
    ensures forall i :: 0 <= i < |items| ==> '\n' !in Rows(items)[i]
  {
    forall i | 0 <= i < |items|
      ensures '\n' !in Rows(items)[i]
    {
      RowShape(i, items[i].caption);
    }
  }

  /** `v` is the rendering of `items`: count label, empty-state flag, and one row per item in order. */
  predicate Shows(v: View, items: seq<Item>) {
    && v.countLabel == CountLabel(|items|)
    && v.emptyState == (items == [])
    && v.rows == Rows(items)
  }

  /** `buildList`: the count label, then the empty-state marker or a row appended per item. */
  method BuildList(items: seq<Item>) returns (v: View)
    ensures Shows(v, items)
    ensures items == [] ==> v.countLabel == "(0)" && v.rows == []
  {
    var countLabel := if |items| > 0 then "(" + Decimal(|items|) + ")" else "(0)";
    if |items| == 0 {
      return View(countLabel, [], true);
    }
    var rows: seq<string> := [];
    var i := 0;
    while i < |items|
      invariant 0 <= i <= |items|
      invariant |rows| == i
      invariant forall k :: 0 <= k < i ==> rows[k] == Row(k, items[k].caption)
    {
      rows := rows + [Decimal(i + 1) + ". " + items[i].caption];
      i := i + 1;
    }
    assert rows == Rows(items);
    v := View(countLabel, rows, false);
  }

  /** The number of leading decimal digits of `s`. */
  function DigitRun(s: string): (n: nat)
    ensures n <= |s| && AllDigits(s[..n])
    ensures n < |s| ==> !IsDigit(s[n])
  {
    if s != [] && IsDigit(s[0]) then 1 + DigitRun(s[1..]) else 0
  }

  lemma {:induction false} DigitRunOfDigits(p: string, s: string)
    requires AllDigits(p)
    requires s == [] || !IsDigit(s[0])
    ensures DigitRun(p + s) == |p|
  {
    if p != [] {
      assert (p + s)[1..] == p[1..] + s;
      DigitRunOfDigits(p[1..], s);
    }
  }

  /** Reads a row back: its 0-based position and its label. */
  function ParseRow(row: string): Option<(nat, string)> {
    var n := DigitRun(row);
    if n == 0 || |row| < n + 2 || row[n..n + 2] != ". " then None
    else
      var v := DigitsValue(row[..n]);
      if v == 0 then None else Some((v - 1, row[n + 2..]))
  }

  /** A row determines the position and the label it was made from. */
  lemma {:induction false} RowRoundTrip(i: nat, caption: string)
    ensures ParseRow(Row(i, caption)) == Some((i, caption))
  {
    var d := Decimal(i + 1);
    var row := Row(i, caption);
    assert row == d + (". " + caption);
    DigitRunOfDigits(d, ". " + caption);
    assert row[..|d|] == d;
    assert row[|d|..|d| + 2] == ". ";
    assert row[|d| + 2..] == caption;
    DecimalRoundTrip(i + 1);
  }

  /** Reads a count label back. */
  function ParseCount(s: string): Option<nat> {
    if |s| < 3 || s[0] != '(' || s[|s| - 1] != ')' || !AllDigits(s[1..|s| - 1]) then None
    else Some(DigitsValue(s[1..|s| - 1]))
  }

  /** The count label states the number of items. */
  lemma {:induction false} CountRoundTrip(n: nat)
    ensures ParseCount(CountLabel(n)) == Some(n)
  {
    var s := CountLabel(n);
    assert s[1..|s| - 1] == Decimal(n);
    DecimalRoundTrip(n);
  }
}
