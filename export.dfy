/**
 * The text `exportMarkdown` hands to the clipboard: a heading, a blank line, and the outline
 * rows joined into lines. The template writes its line breaks as `\\n`, which a template
 * literal turns into a backslash followed by `n`, not into a line break; both the text as
 * written and the text with real line breaks are defined here.
 */
module Export {

  const Heading: string := "# ChatGPT 問題清單"

  /**
   * `Array.prototype.join`: the strings with `sep` between each pair; nothing for no strings.
   * A character that is in none of the strings and not in the separator is not in the result.
   */
  function Join(lines: seq<string>, sep: string): (r: string)
    ensures lines == [] ==> r == ""
    ensures forall c :: c !in sep && (forall k :: 0 <= k < |lines| ==> c !in lines[k]) ==> c !in r
    decreases |lines|
  {
    if lines == [] then ""
    else if |lines| == 1 then lines[0]
    else
      var rest := lines[1..];
      assert forall k :: 0 <= k < |rest| ==> rest[k] == lines[k + 1];
      lines[0] + sep + Join(rest, sep)
  }

  /** The lines of `s`: the pieces between line feeds, in order (one piece when there is none). */
  function SplitLines(s: string): (r: seq<string>)
    ensures |r| >= 1
    decreases |s|
  {
    if s == [] then [""]
    else if s[0] == '\n' then [""] + SplitLines(s[1..])
    else
      var rest := SplitLines(s[1..]);
      [[s[0]] + rest[0]] + rest[1..]
  }

  /** A string without a line feed is a single line. */
  lemma {:induction false} SplitLinesOfLine(a: string)
    requires '\n' !in a
    ensures SplitLines(a) == [a]
    decreases |a|
  {
    if a != [] {
      assert '\n' !in a[1..];
      SplitLinesOfLine(a[1..]);
      assert [a[0]] + a[1..] == a;
    }
  }

  /** A line followed by a line feed splits off as the first line. */
  lemma {:induction false} SplitLinesAfterLine(a: string, b: string)
    requires '\n' !in a
    ensures SplitLines(a + "\n" + b) == [a] + SplitLines(b)
    decreases |a|
  {
    if a == [] {
      assert a + "\n" + b == "\n" + b;
      assert ("\n" + b)[1..] == b;
    } else {
      var s := a + "\n" + b;
      assert s[0] == a[0] && s[1..] == a[1..] + "\n" + b;
      assert '\n' !in a[1..];
      SplitLinesAfterLine(a[1..], b);
      assert [a[0]] + a[1..] == a;
    }
  }

  /** Joining lines with line feeds and splitting the result gives the lines back. */
  lemma {:induction false} JoinSplitRoundTrip(lines: seq<string>)
    requires lines != []
    requires forall k :: 0 <= k < |lines| ==> '\n' !in lines[k]
    ensures SplitLines(Join(lines, "\n")) == lines
    decreases |lines|
  {
    if |lines| == 1 {
      SplitLinesOfLine(lines[0]);
    } else {
      var rest := lines[1..];
      assert forall k :: 0 <= k < |rest| ==> rest[k] == lines[k + 1];
      JoinSplitRoundTrip(rest);
      SplitLinesAfterLine(lines[0], Join(rest, "\n"));
      assert [lines[0]] + rest == lines;
    }
  }

  /**
   * The exported text as the template writes it: every `\\n` is a backslash and an `n`, so
   * for rows without line feeds the text is a single line.
   */
  function MarkdownAsWritten(lines: seq<string>): (r: string)
    ensures (forall k :: 0 <= k < |lines| ==> '\n' !in lines[k]) ==> SplitLines(r) == [r]
  {
    var r := Heading + "\\n\\n" + Join(lines, "\\n");
    if forall k :: 0 <= k < |lines| ==> '\n' !in lines[k] then
      assert '\n' !in Heading + "\\n\\n";
      SplitLinesOfLine(r);
      r
    else r
  }

  /**
   * The exported text with real line breaks. For one or more rows without line feeds, its
   * lines are the heading, a blank line, and the rows.
   */
  function Markdown(lines: seq<string>): (r: string)
    ensures lines != [] && (forall k :: 0 <= k < |lines| ==> '\n' !in lines[k]) ==>
      SplitLines(r) == [Heading, ""] + lines
  {
    if lines != [] && forall k :: 0 <= k < |lines| ==> '\n' !in lines[k] then
      HeadingThenLines(lines);
      Heading + "\n\n" + Join(lines, "\n")
    else Heading + "\n\n" + Join(lines, "\n")
  }

  lemma {:induction false} HeadingThenLines(lines: seq<string>)
    requires lines != [] && forall k :: 0 <= k < |lines| ==> '\n' !in lines[k]
    ensures SplitLines(Heading + "\n\n" + Join(lines, "\n")) == [Heading, ""] + lines
  {
    var body := Join(lines, "\n");
    assert Heading + "\n\n" + body == Heading + "\n" + ("" + "\n" + body);
    assert '\n' !in Heading;
    SplitLinesAfterLine(Heading, "" + "\n" + body);
    SplitLinesAfterLine("", body);
    JoinSplitRoundTrip(lines);
  }

  /**
   * The difference the escaping makes: the export as written is one line, whatever the number
   * of rows, while the text with real line breaks has a line for the heading, one blank line
   * and one line per row.
   */
  lemma {:induction false} MarkdownAsWrittenIsOneLine(lines: seq<string>)
    requires forall k :: 0 <= k < |lines| ==> '\n' !in lines[k]
    ensures |SplitLines(MarkdownAsWritten(lines))| == 1
    ensures lines != [] ==> |SplitLines(Markdown(lines))| == |lines| + 2
  {
  }
}
