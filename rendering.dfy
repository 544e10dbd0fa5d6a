/** The two pure mappings the question views apply while building markup:
    the letter labels in front of answer options, and the numbered, escaped
    lines of a step-trace question's code. */
module Rendering {
  import opened HtmlEscape

  /** A UTF-16 code unit, which is what `String.fromCharCode` produces. */
  type CodeUnit = n: int | 0 <= n < 0x1_0000

  /** `String.fromCharCode(97 + index)`: the argument is reduced modulo 2^16. */
  function OptionLabel(index: nat): (code: CodeUnit)
    ensures index < 26 ==> 'a' as int <= code <= 'z' as int
    ensures index + 97 < 0x1_0000 ==> code == 97 + index
  {
    (97 + index) % 0x1_0000
  }

  /** The label of every option, in order. */
  function OptionLabels<T>(options: seq<T>): (labels: seq<CodeUnit>)
    ensures |labels| == |options|
    ensures forall i :: 0 <= i < |labels| && i < 26 ==> 'a' as int <= labels[i] <= 'z' as int
    ensures forall i, j :: 0 <= i < j < |labels| && j - i < 0x1_0000 ==> labels[i] != labels[j]
  {
    seq(|options|, i requires 0 <= i < |options| => OptionLabel(i))
  }

  /** `text.split('\n')`: always at least one line (the empty text gives one
      empty line), and no line holds a line break. */
  function SplitLines(text: string): (lines: seq<string>)
    ensures |lines| >= 1
    ensures forall i :: 0 <= i < |lines| ==> '\n' !in lines[i]
  {
    if text == [] then [[]]
    else
      var rest := SplitLines(text[1..]);
      if text[0] == '\n' then [[]] + rest
      else [[text[0]] + rest[0]] + rest[1..]
  }

  /** Joining lines with line breaks: the inverse of SplitLines, stated for
      the model (the page itself never joins with line breaks). */
  function JoinLines(lines: seq<string>): string
    requires |lines| >= 1
  {
    if |lines| == 1 then lines[0] else lines[0] + "\n" + JoinLines(lines[1..])
  }

  /** Splitting loses nothing: joining the lines gives the text back. */
  lemma {:induction false} JoinSplitLines(text: string)
    ensures JoinLines(SplitLines(text)) == text
  {
    if text != [] {
      var rest := SplitLines(text[1..]);
      JoinSplitLines(text[1..]);
      if text[0] == '\n' {
        var lines := [[]] + rest;
        assert lines[1..] == rest;
        assert JoinLines(lines) == [] + "\n" + JoinLines(rest);
      } else {
        var lines := [[text[0]] + rest[0]] + rest[1..];
        if |rest| == 1 {
          assert JoinLines(lines) == [text[0]] + rest[0];
        } else {
          assert lines[1..] == rest[1..];
          assert JoinLines(rest) == rest[0] + "\n" + JoinLines(rest[1..]);
          assert JoinLines(lines) == ([text[0]] + rest[0]) + "\n" + JoinLines(rest[1..]);
        }
      }
    }
  }

  /** Splitting a text with no line break gives that text as the only line. */
  lemma {:induction false} SplitLinesSingle(text: string)
    requires '\n' !in text
    ensures SplitLines(text) == [text]
  {
    if text != [] {
      SplitLinesSingle(text[1..]);
      assert [text[0]] + text[1..] == text;
    }
  }

  /** Splitting after a line break: the break ends the first line. */
  lemma {:induction false} SplitLinesBreak(first: string, rest: string)
    requires '\n' !in first
    ensures SplitLines(first + "\n" + rest) == [first] + SplitLines(rest)
  {
    var text := first + "\n" + rest;
    if first == [] {
      assert text == "\n" + rest;
      assert text[1..] == rest;
    } else {
      assert text[0] == first[0];
      assert text[1..] == first[1..] + "\n" + rest;
      SplitLinesBreak(first[1..], rest);
      assert [first[0]] + first[1..] == first;
    }
  }

  /** Joining lines without breaks and splitting again gives the same lines. */
  lemma {:induction false} SplitJoinLines(lines: seq<string>)
    requires |lines| >= 1
    requires forall i :: 0 <= i < |lines| ==> '\n' !in lines[i]
    ensures SplitLines(JoinLines(lines)) == lines
  {
    if |lines| == 1 {
      SplitLinesSingle(lines[0]);
    } else {
      SplitJoinLines(lines[1..]);
      SplitLinesBreak(lines[0], JoinLines(lines[1..]));
      assert [lines[0]] + lines[1..] == lines;
    }
  }

  /** One rendered code line of a step-trace question: its 1-based number
      (used both as `data-line` and `data-line-num`) and its markup. */
  datatype CodeLine = CodeLine(number: nat, html: string)

  /** The markup of one line: the escaped text, or a non-breaking space
      when escaping gives the empty string. */
  function LineHtml(line: string): (html: string)
    ensures html != []
    ensures line == [] ==> html == "&nbsp;"
    ensures line != [] ==> html == EscapeHtml(line)
  {
    var escaped := EscapeHtml(line);
    if escaped == [] then "&nbsp;" else escaped
  }

  /** The numbered code lines of a step-trace question. */
  function CodeLines(code: string): (rendered: seq<CodeLine>)
    ensures |rendered| == |SplitLines(code)|
    ensures forall i :: 0 <= i < |rendered| ==> rendered[i].number == i + 1 && rendered[i].html != []
  {
    var lines := SplitLines(code);
    seq(|lines|, i requires 0 <= i < |lines| => CodeLine(i + 1, LineHtml(lines[i])))
  }

  /** A line's markup is the placeholder exactly when the line is empty;
      otherwise it decodes back to the line. */
  lemma LineHtmlDecodes(line: string)
    ensures LineHtml(line) == "&nbsp;" <==> line == []
    ensures line != [] ==> Unescape(LineHtml(line)) == line
  {
    UnescapeEscapeHtml(line);
    EscapeHtmlEmpty(line);
    EscapeHtmlNeverPlaceholder(line);
  }

  /** No text escapes to the placeholder itself: a leading `&` always
      becomes `&amp;`. */
  lemma EscapeHtmlNeverPlaceholder(line: string)
    ensures EscapeHtml(line) != "&nbsp;"
  {
    if line != [] {
      var e := EscapeHtml(line);
      assert e == EscapeChar(line[0]) + EscapeHtml(line[1..]);
      if IsSpecial(line[0]) {
        assert e[1] != 'n';
      } else {
        assert e[0] != '&';
      }
    }
  }

  /** Every rendered line stands for the line of the code with the same
      index: the placeholder for an empty line, otherwise markup that decodes
      back to the line. */
  lemma CodeLinesDecode(code: string, i: nat)
    requires i < |CodeLines(code)|
    ensures CodeLines(code)[i].html == "&nbsp;" <==> SplitLines(code)[i] == []
    ensures SplitLines(code)[i] != [] ==> Unescape(CodeLines(code)[i].html) == SplitLines(code)[i]
  {
    LineHtmlDecodes(SplitLines(code)[i]);
  }
}
