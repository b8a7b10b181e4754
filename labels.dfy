/**
 * The label an outline entry shows for a user message: the message text collapsed to one
 * line, trimmed, cut to at most 80 characters, and replaced by a numbered placeholder when
 * nothing is left.
 */
module Labels {
  import opened Text

  const MaxLabel: nat := 80
  const KeptPrefix: nat := 77
  const Ellipsis: char := '\U{2026}'
  const FallbackPrefix: string := "問題 #"

  /** Labels longer than 80 characters keep their first 77 and end with an ellipsis. */
  function Truncate(line: string): (r: string)
    ensures |r| <= MaxLabel
    ensures |line| <= MaxLabel ==> r == line
    ensures |line| > MaxLabel ==>
      |r| == KeptPrefix + 1 && r[..KeptPrefix] == line[..KeptPrefix] && r[KeptPrefix] == Ellipsis
    ensures r == [] <==> line == []
  {
    if |line| > MaxLabel then line[..KeptPrefix] + [Ellipsis] else line
  }

  /** The placeholder for the item at 0-based position `index`: the prefix and the 1-based number. */
  function Fallback(index: nat): (r: string)
    ensures |r| > |FallbackPrefix| && r[..|FallbackPrefix|] == FallbackPrefix
    ensures AllDigits(r[|FallbackPrefix|..]) && DigitsValue(r[|FallbackPrefix|..]) == index + 1
  {
    DecimalRoundTrip(index + 1);
    assert (FallbackPrefix + Decimal(index + 1))[|FallbackPrefix|..] == Decimal(index + 1);
    FallbackPrefix + Decimal(index + 1)
  }

  /** The message text on one line: every run of whitespace collapsed to a space, then trimmed. */
  function OneLine(raw: string): (r: string)
    ensures r != [] ==> !IsTrimmable(r[0]) && !IsTrimmable(r[|r| - 1])
  {
    Trim(CollapseSpaces(raw))
  }

  /** The one-line text keeps every character of the message that is not whitespace, in order. */
  lemma {:induction false} OneLineKeepsText(raw: string)
    ensures NonSpace(OneLine(raw)) == NonSpace(raw)
  {
    CollapseSpacesKeepsText(raw);
    TrimKeepsText(CollapseSpaces(raw));
  }

  /** The only whitespace left in the one-line text is single spaces. */
  lemma {:induction false} OneLineSpaces(raw: string)
    ensures forall i :: 0 <= i < |OneLine(raw)| && IsTrimmable(OneLine(raw)[i]) ==> OneLine(raw)[i] == ' '
    ensures forall i :: 0 < i < |OneLine(raw)| ==>
      !(IsTrimmable(OneLine(raw)[i - 1]) && IsTrimmable(OneLine(raw)[i]))
  {
    var c := CollapseSpaces(raw);
    var r := OneLine(raw);
    CollapseSpacesShape(raw);
    TrimSplit(c);
    var k := Leading(c);
    assert forall i :: 0 <= i < |r| ==> r[i] == c[k + i];
  }

  /** Whitespace between two words of the message becomes exactly one space in the one-line text. */
  lemma {:induction false} OneLineSeparatesWords(a: string, w: string, b: string)
    requires a != [] && !IsTrimmable(a[|a| - 1])
    requires w != [] && forall i :: 0 <= i < |w| ==> IsTrimmable(w[i])
    requires b != [] && !IsTrimmable(b[0])
    ensures OneLine(a + w + b) == OneLine(a) + " " + OneLine(b)
  {
    CollapseSpacesSeparatesWords(a, w, b);
    CollapseSpacesLast(a);
    TrimAroundSpace(CollapseSpaces(a), CollapseSpaces(b));
  }

  /** The one-line text is empty exactly when the message is all whitespace. */
  lemma {:induction false} OneLineEmpty(raw: string)
    ensures OneLine(raw) == [] <==> forall i :: 0 <= i < |raw| ==> IsTrimmable(raw[i])
  {
    var r := OneLine(raw);
    OneLineKeepsText(raw);
    NonSpaceEmpty(raw);
    if r != [] {
      assert NonSpace(r) == [r[0]] + NonSpace(r[1..]);
    }
  }

  /** The label of the item at 0-based position `index` whose node text is `raw`. */
  function Label(raw: string, index: nat): (r: string)
    ensures r != []
    ensures var line := OneLine(raw);
      && (line == [] ==> r == Fallback(index))
      && (0 < |line| <= MaxLabel ==> r == line)
      && (|line| > MaxLabel ==>
            |r| == KeptPrefix + 1 && r[..KeptPrefix] == line[..KeptPrefix] && r[KeptPrefix] == Ellipsis)
  {
    var cut := Truncate(OneLine(raw));
    if cut != [] then cut else Fallback(index)
  }

  /** A label never holds a line feed, so each outline row and each exported line is one line. */
  lemma {:induction false} LabelSingleLine(raw: string, index: nat)
    ensures '\n' !in Label(raw, index)
  {
    var line := OneLine(raw);
    var r := Label(raw, index);
    OneLineSpaces(raw);
    assert IsTrimmable('\n');
    if line == [] {
      var d := Decimal(index + 1);
      assert r == FallbackPrefix + d;
      assert '\n' !in FallbackPrefix;
      assert forall i :: 0 <= i < |d| ==> IsDigit(d[i]);
    } else if |line| > MaxLabel {
      assert r == line[..KeptPrefix] + [Ellipsis];
    }
  }
}
