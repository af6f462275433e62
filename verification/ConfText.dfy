/** How generated configuration text falls apart again: lines, paragraphs, and the searches the
    inspector makes in them. */
module ConfText {
  import opened Prelude
  import opened Splitting
  import opened Text

  // ----- lines -----

  /** Where str.splitlines breaks. */
  predicate IsLineBreak(c: char)
  {
    || '\n' <= c <= '\r' || '\U{1C}' <= c <= '\U{1E}' || c == '\U{85}' || c == '\U{2028}' || c == '\U{2029}'
  }

  /** Text of one line: no break and no NUL. */
  ghost predicate IsLine(s: string)
  {
    forall c :: c in s ==> !IsLineBreak(c) && c != '\0'
  }

  function FirstBreak(s: string, from: nat): (i: nat)
    requires from <= |s|
    ensures from <= i <= |s|
    decreases |s| - from
  {
    if from == |s| || IsLineBreak(s[from]) then from else FirstBreak(s, from + 1)
  }

  function SplitLines(s: string): seq<string>
    decreases |s|
  {
    if s == "" then [] else
    var i := FirstBreak(s, 0);
    if i == |s| then [s]
    else [s[..i]] + SplitLines(s[i + if s[i] == '\r' && i + 1 < |s| && s[i + 1] == '\n' then 2 else 1..])
  }

  lemma {:induction false} FirstBreakAfterLine(line: string, rest: string, from: nat)
    requires IsLine(line) && from <= |line| && (rest != "" ==> rest[0] == '\n')
    ensures FirstBreak(line + rest, from) == |line|
    decreases |line| - from
  {
    if from < |line| {
      assert (line + rest)[from] == line[from] && line[from] in line;
      FirstBreakAfterLine(line, rest, from + 1);
    }
  }

  lemma FirstLine(line: string, rest: string)
    requires IsLine(line)
    ensures SplitLines(line + "\n" + rest) == [line] + SplitLines(rest)
  {
    var s := line + "\n" + rest;
    assert s == line + ("\n" + rest);
    FirstBreakAfterLine(line, "\n" + rest, 0);
    assert s[..|line|] == line && s[|line| + 1..] == rest;
  }

  lemma {:induction false} LinesOfTerminated(lines: seq<string>)
    requires forall k :: 0 <= k < |lines| ==> IsLine(lines[k])
    ensures SplitLines(Terminated(lines, "\n")) == lines
  {
    if lines != [] {
      FirstLine(lines[0], Terminated(lines[1..], "\n"));
      LinesOfTerminated(lines[1..]);
    }
  }

  lemma {:induction false} LinesOfJoined(lines: seq<string>)
    requires lines != [] && lines[|lines| - 1] != "" && forall k :: 0 <= k < |lines| ==> IsLine(lines[k])
    ensures SplitLines(Join(lines, "\n")) == lines
  {
    if |lines| == 1 {
      FirstBreakAfterLine(lines[0], "", 0);
      assert lines[0] + "" == lines[0];
    } else {
      FirstLine(lines[0], Join(lines[1..], "\n"));
      LinesOfJoined(lines[1..]);
    }
  }

  // ----- paragraphs -----

  const BLANK: string := "\n\n"

  /** Text between blank lines: it neither starts nor ends with a newline. */
  ghost predicate IsParagraph(p: string)
  {
    p != "" && p[0] != '\n' && p[|p| - 1] != '\n' && EndsAtItsEnd(p, BLANK)
  }

  lemma NoNewlineInLine(line: string)
    requires IsLine(line)
    ensures '\n' !in line
  {
    assert IsLineBreak('\n');
  }

  ghost predicate AreTextLines(lines: seq<string>)
  {
    lines != [] && forall k :: 0 <= k < |lines| ==> lines[k] != "" && '\n' !in lines[k]
  }

  lemma TextLinesEndAtTheirEnd(lines: seq<string>)
    requires AreTextLines(lines)
    ensures var p := Join(lines, "\n"); EndsAtItsEnd(p, BLANK) && p != "" && p[0] == lines[0][0]
  {
    assert "\n" + "\n" == BLANK;
    JoinedEndsAtItsEnd(lines, "\n");
  }

  lemma TextLinesMakeAParagraph(lines: seq<string>)
    requires AreTextLines(lines)
    ensures IsParagraph(Join(lines, "\n"))
  {
    var last := lines[|lines| - 1];
    TextLinesEndAtTheirEnd(lines);
    JoinEndsInItsLastLine(lines, "\n");
    assert lines[0][0] in lines[0] && last[|last| - 1] in last;
  }

  lemma LinesMakeAParagraph(lines: seq<string>)
    requires lines != [] && forall k :: 0 <= k < |lines| ==> lines[k] != "" && IsLine(lines[k])
    ensures IsParagraph(Join(lines, "\n")) && SplitLines(Join(lines, "\n")) == lines
  {
    forall k | 0 <= k < |lines| ensures '\n' !in lines[k] {
      NoNewlineInLine(lines[k]);
    }
    TextLinesMakeAParagraph(lines);
    LinesOfJoined(lines);
  }

  function TrimAll(parts: seq<string>): seq<string>
  {
    if parts == [] then [] else [Trim(parts[0], IsNewline)] + TrimAll(parts[1..])
  }

  lemma TrimAllOfOne(part: string, rest: seq<string>)
    ensures TrimAll([part]) == [Trim(part, IsNewline)]
    ensures TrimAll([part] + rest) == [Trim(part, IsNewline)] + TrimAll(rest)
  {
    assert ([part] + rest)[1..] == rest && [part][1..] == [];
  }

  /** [part.strip("\n") for part in text.split("\n\n")] */
  function Paragraphs(text: string): seq<string>
  {
    TrimAll(Split(text, BLANK))
  }

  /** A header, and paragraphs in the way the generator puts them behind it. */
  function Document(header: string, ps: seq<string>): string
  {
    if ps == [] then header + BLANK else header + BLANK + ("\n" + Tail(ps))
  }

  function Tail(ps: seq<string>): string
  {
    Join(ps, BLANK) + "\n"
  }

  lemma TrimKeeps(p: string)
    requires IsParagraph(p)
    ensures Trim(p, IsNewline) == p && Trim("\n" + p, IsNewline) == p && Trim(p + "\n", IsNewline) == p
  {
    TrimStartStops(p);
    TrimEndStops(p);
    assert ("\n" + p)[1..] == p;
    TrimStartStops(p + "\n");
    assert (p + "\n")[..|p|] == p;
  }

  lemma TrimStartStops(s: string)
    requires s != "" && s[0] != '\n'
    ensures TrimStart(s, IsNewline) == s
  {
  }

  lemma TrimEndStops(s: string)
    requires s != "" && s[|s| - 1] != '\n'
    ensures TrimEnd(s, IsNewline) == s
  {
  }

  lemma SplitLast(p: string)
    requires IsParagraph(p)
    ensures Split(p + "\n", BLANK) == [p + "\n"]
  {
    FindIsFirst(p + BLANK, BLANK);
    forall j: nat ensures !At(p + "\n", BLANK, j) {
      if j < |p| {
        assert !At(p + BLANK, BLANK, j);
        if j + 2 <= |p + "\n"| {
          assert (p + "\n")[j..j + 2] == (p + BLANK)[j..j + 2];
        }
      }
    }
    SplitNone(p + "\n", BLANK);
  }

  lemma SplitOneOff(p: string, rest: string)
    requires EndsAtItsEnd(p, BLANK)
    ensures Split(p + BLANK + rest, BLANK) == [p] + Split(rest, BLANK)
  {
    FindIsFirst(p + BLANK, BLANK);
    SplitFirst(p, rest, BLANK);
  }

  lemma {:induction false} ParagraphsOfTail(ps: seq<string>)
    requires ps != [] && forall k :: 0 <= k < |ps| ==> IsParagraph(ps[k])
    ensures Paragraphs(Tail(ps)) == ps
    ensures Tail(ps)[0] != '\n'
  {
    TrimKeeps(ps[0]);
    if |ps| == 1 {
      SplitLast(ps[0]);
      TrimAllOfOne(ps[0] + "\n", []);
    } else {
      SplitOneOff(ps[0], Tail(ps[1..]));
      ParagraphsOfTail(ps[1..]);
      assert Tail(ps) == ps[0] + BLANK + Tail(ps[1..]);
      TrimAllOfOne(ps[0], Split(Tail(ps[1..]), BLANK));
    }
  }

  /** One more newline in front belongs to the first paragraph and is trimmed off. */
  lemma LeadingNewline(text: string)
    requires text != "" && text[0] != '\n'
    ensures Paragraphs("\n" + text) == Paragraphs(text)
  {
    var s := "\n" + text;
    NotAt(s, BLANK, 0, 1);
    FindIsFirst(text, BLANK);
    match Find(text, BLANK)
    case None =>
      forall j: nat ensures !At(s, BLANK, j) {
        if j > 0 { ShiftAt("\n", text, BLANK, j - 1); }
      }
      SplitNone(s, BLANK);
      TrimAllOfOne(s, []);
      TrimAllOfOne(text, []);
      assert s[1..] == text;
    case Some(i) =>
      forall j: nat | j <= i ensures !At(s, BLANK, j) {
        if j > 0 { ShiftAt("\n", text, BLANK, j - 1); }
      }
      ShiftAt("\n", text, BLANK, i);
      FindIs(s, BLANK, i + 1);
      assert s[..i + 1] == "\n" + text[..i] && s[i + 3..] == text[i + 2..];
      assert ("\n" + text[..i])[1..] == text[..i];
  }

  lemma ParagraphsOfDocument(header: string, ps: seq<string>)
    requires IsParagraph(header) && forall k :: 0 <= k < |ps| ==> IsParagraph(ps[k])
    ensures Paragraphs(Document(header, ps)) == [header] + if ps == [] then [""] else ps
  {
    TrimKeeps(header);
    if ps == [] {
      SplitOneOff(header, "");
      assert header + BLANK + "" == header + BLANK;
      SplitNone("", BLANK);
      TrimAllOfOne(header, [""]);
      TrimAllOfOne("", []);
    } else {
      SplitOneOff(header, "\n" + Tail(ps));
      TrimAllOfOne(header, Split("\n" + Tail(ps), BLANK));
      ParagraphsOfTail(ps);
      LeadingNewline(Tail(ps));
    }
  }
}
