/**
 How a text is split into lines: services/vdoc/store.go, splitMarkdownLines, and services/vdoc/text_document.go,
 splitPlainTextLines. The lines are set against the ways to write lines down: which newline stands
 between two lines is a free choice in Markdown, and no choice in plain text.
 */

module TextLines {
  // Splitting

  /** strings.Split at every newline. */
  function SplitLines(s: string): (r: seq<string>)
    ensures |r| > 0
  {
    if s == "" then [""]
    else
      var rest := SplitLines(s[1..]);
      if s[0] == '\n' then [""] + rest else [[s[0]] + rest[0]] + rest[1..]
  }

  function SplitPlainTextLines(content: string): seq<string> {
    if content == "" then [] else SplitLines(content)
  }

  /** strings.ReplaceAll of CRLF by LF. */
  function UnixNewlines(s: string): string {
    if s == "" then ""
    else if |s| >= 2 && s[0] == '\r' && s[1] == '\n' then "\n" + UnixNewlines(s[2..])
    else [s[0]] + UnixNewlines(s[1..])
  }

  function SplitMarkdownLines(content: string): seq<string> {
    if content == "" then [] else SplitLines(UnixNewlines(content))
  }

  // Writing lines down

  datatype Newline = Lf | CrLf {
    function Text(): string {
      if Lf? then "\n" else "\r\n"
    }
  }

  /** The lines with a newline between each two of them. */
  function Write(lines: seq<string>, breaks: seq<Newline>): string
    requires |lines| == |breaks| + 1
  {
    if breaks == [] then lines[0] else lines[0] + breaks[0].Text() + Write(lines[1..], breaks[1..])
  }

  predicate OneLine(s: string) {
    '\n' !in s
  }

  predicate EndsInReturn(s: string) {
    s != "" && s[|s| - 1] == '\r'
  }

  /** No line holds a newline, nor ends in a carriage return that would join a newline behind it. */
  predicate Legible(lines: seq<string>, breaks: seq<Newline>) {
    && |lines| == |breaks| + 1
    && (forall i | 0 <= i < |lines| :: OneLine(lines[i]))
    && forall i | 0 <= i < |breaks| && breaks[i].Lf? :: !EndsInReturn(lines[i])
  }

  function Unix(n: nat): (breaks: seq<Newline>)
    ensures |breaks| == n
  {
    seq(n, _ => Lf)
  }

  /** The two texts write the same lines, with newlines of either kind. */
  ghost predicate SameWriting(x: string, y: string) {
    exists lines, a, b :: Legible(lines, a) && Legible(lines, b) && Write(lines, a) == x && Write(lines, b) == y
  }

  // Plain text

  lemma {:induction false} SplitOne(line: string)
    requires OneLine(line)
    ensures SplitLines(line) == [line]
  {
    if line != "" {
      SplitOne(line[1..]);
      assert [line[0]] + line[1..] == line;
    }
  }

  lemma {:induction false} SplitFirst(line: string, rest: string)
    requires OneLine(line)
    ensures SplitLines(line + "\n" + rest) == [line] + SplitLines(rest)
  {
    var s := line + "\n" + rest;
    if line == "" {
      assert s[1..] == rest;
    } else {
      SplitFirst(line[1..], rest);
      assert s[1..] == line[1..] + "\n" + rest && s[0] == line[0];
      assert [line[0]] + line[1..] == line;
      assert SplitLines(s) == [[s[0]] + SplitLines(s[1..])[0]] + SplitLines(s[1..])[1..];
    }
  }

  lemma {:induction false} SplitWritten(lines: seq<string>)
    requires lines != [] && forall i | 0 <= i < |lines| :: OneLine(lines[i])
    ensures SplitLines(Write(lines, Unix(|lines| - 1))) == lines
  {
    if |lines| == 1 {
      SplitOne(lines[0]);
    } else {
      var breaks := Unix(|lines| - 1);
      assert breaks[1..] == Unix(|lines| - 2);
      SplitWritten(lines[1..]);
      SplitFirst(lines[0], Write(lines[1..], breaks[1..]));
    }
  }

  /** Lines written with line feeds between them are the plain lines of the text. */
  lemma PlainLinesExact(lines: seq<string>)
    requires lines != [] && forall i | 0 <= i < |lines| :: OneLine(lines[i])
    requires Write(lines, Unix(|lines| - 1)) != ""
    ensures SplitPlainTextLines(Write(lines, Unix(|lines| - 1))) == lines
  {
    SplitWritten(lines);
  }

  /** The split holds no newline, and writing it down again gives the text. */
  lemma {:induction false} JoinSplit(s: string)
    ensures forall i | 0 <= i < |SplitLines(s)| :: OneLine(SplitLines(s)[i])
    ensures Write(SplitLines(s), Unix(|SplitLines(s)| - 1)) == s
  {
    if s != "" {
      JoinSplit(s[1..]);
      var rest := SplitLines(s[1..]);
      if s[0] == '\n' {
        JoinNewline(s, rest);
      } else {
        WriteBehind(s[0], rest, Unix(|rest| - 1));
        assert [s[0]] + s[1..] == s;
      }
    }
  }

  lemma JoinNewline(s: string, rest: seq<string>)
    requires s != "" && s[0] == '\n' && rest != [] && Write(rest, Unix(|rest| - 1)) == s[1..]
    ensures Write([""] + rest, Unix(|rest|)) == s
  {
    hide Write;
    hide Legible;
    assert "\n" + s[1..] == s;
    var lines, breaks := WriteAfter(s, rest, Unix(|rest| - 1), Lf);
    UnixNext(|rest| - 1);
  }

  lemma UnixNext(n: nat)
    ensures [Lf] + Unix(n) == Unix(n + 1)
  {
  }

  lemma WriteBehind(c: char, lines: seq<string>, breaks: seq<Newline>)
    requires |lines| == |breaks| + 1
    ensures Write([[c] + lines[0]] + lines[1..], breaks) == [c] + Write(lines, breaks)
  {
    var more := [[c] + lines[0]] + lines[1..];
    assert more[1..] == lines[1..];
    if breaks != [] {
      var tail := Write(lines[1..], breaks[1..]);
      assert ([c] + lines[0]) + breaks[0].Text() + tail == [c] + (lines[0] + breaks[0].Text() + tail);
    }
  }

  lemma SplitPlainInjective(x: string, y: string)
    ensures SplitPlainTextLines(x) == SplitPlainTextLines(y) <==> x == y
  {
    JoinSplit(x);
    JoinSplit(y);
  }

  // Markdown

  lemma {:induction false} UnixFirst(line: string, rest: string)
    requires OneLine(line) && (EndsInReturn(line) && rest != "" ==> rest[0] != '\n')
    ensures UnixNewlines(line + rest) == line + UnixNewlines(rest)
  {
    if line == "" {
      assert line + rest == rest;
    } else {
      UnixFirst(line[1..], rest);
      assert (line + rest)[1..] == line[1..] + rest && (line + rest)[0] == line[0];
      assert [line[0]] + (line[1..] + UnixNewlines(rest)) == line + UnixNewlines(rest);
    }
  }

  lemma UnixBreak(newline: Newline, tail: string)
    ensures UnixNewlines(newline.Text() + tail) == "\n" + UnixNewlines(tail)
    ensures newline.Lf? ==> (newline.Text() + tail)[0] == '\n'
    ensures newline.CrLf? ==> (newline.Text() + tail)[0] == '\r'
  {
    var s := newline.Text() + tail;
    assert s[|newline.Text()|..] == tail;
  }

  lemma Together(a: string, b: string, c: string)
    ensures a + b + c == a + (b + c)
  {
  }

  lemma {:induction false} UnixWritten(lines: seq<string>, breaks: seq<Newline>)
    requires Legible(lines, breaks)
    ensures UnixNewlines(Write(lines, breaks)) == Write(lines, Unix(|breaks|))
    decreases |breaks|
  {
    hide UnixNewlines;
    if breaks == [] {
      UnixOne(lines[0]);
    } else {
      var tail := Write(lines[1..], breaks[1..]);
      UnixWritten(lines[1..], breaks[1..]);
      assert Unix(|breaks|)[1..] == Unix(|breaks| - 1);
      UnixBreak(breaks[0], tail);
      UnixFirst(lines[0], breaks[0].Text() + tail);
      Together(lines[0], breaks[0].Text(), tail);
      Together(lines[0], "\n", UnixNewlines(tail));
    }
  }

  lemma UnixOne(line: string)
    requires OneLine(line)
    ensures UnixNewlines(line) == line
  {
    UnixFirst(line, "");
    assert line + "" == line;
  }

  /** Lines written with newlines of any kind between them are the Markdown lines of the text. */
  lemma MarkdownLinesExact(lines: seq<string>, breaks: seq<Newline>)
    requires Legible(lines, breaks) && Write(lines, breaks) != ""
    ensures SplitMarkdownLines(Write(lines, breaks)) == lines
  {
    UnixWritten(lines, breaks);
    SplitWritten(lines);
  }

  /** Every text writes some lines down. */
  lemma {:induction false} EveryTextWritten(s: string) returns (lines: seq<string>, breaks: seq<Newline>)
    ensures Legible(lines, breaks) && Write(lines, breaks) == s
  {
    if s == "" {
      lines, breaks := [""], [];
    } else if |s| >= 2 && s[..2] == "\r\n" {
      lines, breaks := EveryTextWritten(s[2..]);
      lines, breaks := WriteAfter(s, lines, breaks, CrLf);
    } else if s[0] == '\n' {
      lines, breaks := EveryTextWritten(s[1..]);
      lines, breaks := WriteAfter(s, lines, breaks, Lf);
    } else {
      lines, breaks := EveryTextWritten(s[1..]);
      lines := WriteBefore(s, lines, breaks);
    }
  }

  lemma WriteBefore(s: string, rest: seq<string>, breaks: seq<Newline>) returns (lines: seq<string>)
    requires s != "" && s[0] != '\n' && !(|s| >= 2 && s[..2] == "\r\n")
    requires Legible(rest, breaks) && Write(rest, breaks) == s[1..]
    ensures Legible(lines, breaks) && Write(lines, breaks) == s
  {
    assert breaks != [] && breaks[0].Lf? && rest[0] == "" ==> s[1..][0] == '\n';
    WriteBehind(s[0], rest, breaks);
    assert [s[0]] + s[1..] == s;
    lines := [[s[0]] + rest[0]] + rest[1..];
  }

  /** The Markdown lines of a text are lines that it writes down: none of them holds a newline. */
  lemma MarkdownJoinSplit(s: string) returns (breaks: seq<Newline>)
    requires s != ""
    ensures Legible(SplitMarkdownLines(s), breaks) && Write(SplitMarkdownLines(s), breaks) == s
  {
    var lines;
    lines, breaks := EveryTextWritten(s);
    MarkdownLinesExact(lines, breaks);
  }

  lemma WriteAfter(s: string, rest: seq<string>, after: seq<Newline>, newline: Newline)
    returns (lines: seq<string>, breaks: seq<Newline>)
    requires |rest| == |after| + 1 && newline.Text() + Write(rest, after) == s
    ensures lines == [""] + rest && breaks == [newline] + after && Write(lines, breaks) == s
    ensures Legible(rest, after) ==> Legible(lines, breaks)
  {
    lines, breaks := [""] + rest, [newline] + after;
    assert lines[1..] == rest && breaks[1..] == after;
    assert "" + newline.Text() + Write(rest, after) == s;
  }

  lemma EmptyWritten(lines: seq<string>, breaks: seq<Newline>)
    requires |lines| == |breaks| + 1 && Write(lines, breaks) == ""
    ensures lines == [""]
  {
  }

  /** Texts have the same Markdown lines exactly if they write the same lines down. */
  lemma SplitMarkdownInjective(x: string, y: string)
    ensures SplitMarkdownLines(x) == SplitMarkdownLines(y) <==> SameWriting(x, y)
  {
    var lines, a := EveryTextWritten(x);
    var others, b := EveryTextWritten(y);
    if SplitMarkdownLines(x) == SplitMarkdownLines(y) {
      if x != "" {
        MarkdownLinesExact(lines, a);
      }
      if y != "" {
        MarkdownLinesExact(others, b);
      }
      if x == "" {
        EmptyWritten(lines, a);
        EmptyWritten(others, b);
      }
      assert lines == others;
    }
    if lines, a, b :| Legible(lines, a) && Legible(lines, b) && Write(lines, a) == x && Write(lines, b) == y {
      if x == "" {
        EmptyWritten(lines, a);
      } else if y == "" {
        EmptyWritten(lines, b);
      } else {
        MarkdownLinesExact(lines, a);
        MarkdownLinesExact(lines, b);
      }
    }
  }
}
