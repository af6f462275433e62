/** The gate over the dialplan, the hints and the mailboxes of one tenant. */
module ConfGateTenant {
  import opened Prelude
  import opened Splitting
  import opened Text
  import opened ConfText
  import opened ConfRender
  import opened ConfLines
  import opened ConfInspect
  import opened ConfReading

  // ----- DE-24 to DE-28: the dialplan of a tenant -----

  function DialParagraph(e: Extension): string { Join(DialLines(e), "\n") }

  /** Each text a group of its own. */
  function Singles(texts: seq<string>): (groups: seq<seq<string>>)
    ensures |groups| == |texts| && forall k :: 0 <= k < |texts| ==> groups[k] == [texts[k]]
  {
    seq(|texts|, k requires 0 <= k < |texts| => [texts[k]])
  }

  lemma {:induction false} FlatOfSingles(texts: seq<string>)
    ensures Flat(Singles(texts)) == texts
  {
    if texts != [] {
      var last := |texts| - 1;
      assert Singles(texts)[..last] == Singles(texts[..last]);
      FlatOfSingles(texts[..last]);
    }
  }

  lemma DialIsDocument(rows: seq<Extension>)
    ensures DialText(rows) == Document(Header(), Each(rows, DialParagraph))
  {
    var paragraphs := Each(rows, DialParagraph);
    assert Each(rows, DialBlock) == Blocks(Singles(paragraphs));
    ReportIsDocument(Singles(paragraphs));
    FlatOfSingles(paragraphs);
  }

  lemma DialPrefixesDiffer(a: string, b: string)
    requires |a| == |b| == 4
    ensures StartsWith(DialPrefix(a), DialPrefix(b)) <==> a == b
  {
    assert DialPrefix(a)[9..13] == a && DialPrefix(b)[9..13] == b;
  }

  /** Of a plain record, the paragraph starts with the prefix of its own number only. */
  lemma DialParagraphPrefix(e: Extension, number: string)
    requires IsPlain(e) && |number| == 4
    ensures StartsWith(DialParagraph(e), DialPrefix(number)) <==> number == NumberText(e.number)
  {
    var own := DialPrefix(NumberText(e.number));
    var paragraph, first := DialParagraph(e), DialLines(e)[0];
    assert paragraph[..|first|] == first && first[..|own|] == own;
    assert paragraph[..|own|] == own;
    DialPrefixesDiffer(NumberText(e.number), number);
  }

  // ----- what one chunk holds -----

  lemma ContainsMiddle(a: string, part: string, b: string)
    ensures Contains(a + part + b, part)
  {
    FindIsFirst(a + part + b, part);
    assert (a + part + b)[|a|..|a| + |part|] == part;
    assert At(a + part + b, part, |a|);
  }

  lemma FourJoined(a: string, b: string, c: string, d: string)
    ensures Join([a, b, c, d], "\n") == a + "\n" + b + "\n" + c + "\n" + d
  {
    assert [a, b, c, d] == [a] + [b, c, d] && [b, c, d] == [b] + [c, d] && [c, d] == [c] + [d];
    JoinOneMore(a, [b, c, d], "\n");
    JoinOneMore(b, [c, d], "\n");
    JoinOneMore(c, [d], "\n");
    assert a + "\n" + (b + "\n" + (c + "\n" + d)) == a + "\n" + b + "\n" + c + "\n" + d;
  }

  lemma ContainsEach(a: string, b: string, c: string, d: string)
    ensures Contains(Join([a, b, c, d], "\n"), b) && Contains(Join([a, b, c, d], "\n"), c)
    ensures EndsWith(Join([a, b, c, d], "\n"), d)
  {
    var text := Join([a, b, c, d], "\n");
    FourJoined(a, b, c, d);
    assert text == (a + "\n") + b + ("\n" + c + "\n" + d);
    ContainsMiddle(a + "\n", b, "\n" + c + "\n" + d);
    assert text == (a + "\n" + b + "\n") + c + ("\n" + d);
    ContainsMiddle(a + "\n" + b + "\n", c, "\n" + d);
    assert text[|text| - |d|..] == d;
  }

  lemma ContainsInFirst(x: string, part: string, y: string, b: string, c: string, d: string)
    ensures Contains(Join([x + part + y, b, c, d], "\n"), part)
  {
    FourJoined(x + part + y, b, c, d);
    assert x + part + y + "\n" + b + "\n" + c + "\n" + d == x + part + (y + "\n" + b + "\n" + c + "\n" + d);
    ContainsMiddle(x, part, y + "\n" + b + "\n" + c + "\n" + d);
  }

  lemma MonitorIsInFirst(number: string)
    ensures MonitorLine(number) == DialPrefix(number) + Monitor() + (Recording() + number + ".wav,b)")
  {
  }

  lemma ChunkHasItsTokens(e: Extension)
    ensures Contains(DialParagraph(e), Monitor())
    ensures Contains(DialParagraph(e), AccountCode(TenantOf(e))) && Contains(DialParagraph(e), DialEndpoint(e.name))
    ensures EndsWith(DialParagraph(e), Hangup())
  {
    var l, number := DialLines(e), NumberText(e.number);
    MonitorIsInFirst(number);
    ContainsInFirst(DialPrefix(number), Monitor(), Recording() + number + ".wav,b)", l[1], l[2], l[3]);
    ContainsEach(l[0], l[1], l[2], l[3]);
  }

  lemma HangupEnds(text: string)
    requires EndsWith(text, Hangup())
    ensures EndsWith(TrimEnd(text, IsSpace), Hangup()[1..])
  {
    var h := Hangup();
    assert h[|h| - 1] == ')' && text[|text| - |h|..][|h| - 1] == text[|text| - 1];
    assert text[|text| - |h| + 1..] == text[|text| - |h|..][1..];
  }

  ghost predicate ArePlainRows(rows: seq<Extension>)
  {
    && (forall k :: 0 <= k < |rows| ==> IsPlain(rows[k]))
    && (forall j, k :: 0 <= j < k < |rows| ==> NumberText(rows[j].number) != NumberText(rows[k].number))
  }

  lemma DialParagraphIsParagraph(e: Extension)
    requires IsPlain(e)
    ensures IsParagraph(DialParagraph(e))
  {
    DialLinesArePlain(e);
    LinesMakeAParagraph(DialLines(e));
  }

  /** Each record finds its own chunk of the dialplan. */
  lemma ChunkIsFound(rows: seq<Extension>, i: nat)
    requires ArePlainRows(rows) && i < |rows|
    ensures DialChunk(DialText(rows), NumberText(rows[i].number)) == DialParagraph(rows[i])
  {
    var ps, number := Each(rows, DialParagraph), NumberText(rows[i].number);
    forall k | 0 <= k < |rows|
      ensures IsParagraph(ps[k]) && (StartsWith(ps[k], DialPrefix(number)) <==> k == i)
    {
      DialParagraphIsParagraph(rows[k]);
      DialParagraphPrefix(rows[k], number);
    }
    DialIsDocument(rows);
    assert DialPrefix(number)[0] == 'e';
    KeptOfDocument(ps, DialPrefix(number));
    KeepOnePrefixed(ps, DialPrefix(number), i);
  }

  // ----- the numbers a dialplan dials -----

  lemma {:induction false} SplitAtNewline(a: string, b: string)
    ensures Split(a + "\n" + b, "\n") == Split(a, "\n") + Split(b, "\n")
    decreases |a|
  {
    FindIsFirst(a, "\n");
    match Find(a, "\n")
    case None =>
      forall j: nat | j < |a| ensures !At(a + "\n", "\n", j) {
        assert !At(a, "\n", j);
        assert (a + "\n")[j..j + 1] == a[j..j + 1];
      }
      SplitFirst(a, b, "\n");
    case Some(i) =>
      var rest := "\n" + b;
      FindInPrefix(a, rest, "\n");
      assert a + "\n" + b == a + rest;
      assert (a + rest)[..i] == a[..i] && (a + rest)[i + 1..] == a[i + 1..] + "\n" + b;
      SplitAtNewline(a[i + 1..], b);
  }

  lemma {:induction false} KeepDialedConcat(a: seq<string>, b: seq<string>)
    ensures KeepDialed(a + b) == KeepDialed(a) + KeepDialed(b)
  {
    if b == [] {
      assert a + b == a;
    } else {
      assert (a + b)[..|a + b| - 1] == a + b[..|b| - 1];
      KeepDialedConcat(a, b[..|b| - 1]);
    }
  }

  lemma {:induction false} KeepNoneDialed(lines: seq<string>)
    requires forall k :: 0 <= k < |lines| ==> lines[k] == "" || lines[k][0] != 'e'
    ensures KeepDialed(lines) == []
  {
    if lines != [] {
      KeepNoneDialed(lines[..|lines| - 1]);
      var last := lines[|lines| - 1];
      if last != "" {
        assert "exten => "[0] == 'e';
        StartsOtherwise(last, "exten => ");
      }
    }
  }

  lemma DialedAtNewline(a: string, b: string)
    ensures DialedNumbers(a + "\n" + b) == DialedNumbers(a) + DialedNumbers(b)
  {
    SplitAtNewline(a, b);
    KeepDialedConcat(Split(a, "\n"), Split(b, "\n"));
  }

  lemma NothingDialedInNothing()
    ensures DialedNumbers("") == []
  {
    SplitNone("", "\n");
    KeepNoneDialed([""]);
  }

  lemma DialedAtBlank(a: string, b: string)
    ensures DialedNumbers(a + BLANK + b) == DialedNumbers(a) + DialedNumbers(b)
  {
    NothingDialedInNothing();
    assert a + BLANK + b == a + "\n" + ("" + "\n" + b);
    DialedAtNewline(a, "" + "\n" + b);
    DialedAtNewline("", b);
  }

  lemma {:induction false} DialedInTail(ps: seq<string>, numbers: seq<string>)
    requires ps != [] && |ps| == |numbers| && forall k :: 0 <= k < |ps| ==> DialedNumbers(ps[k]) == [numbers[k]]
    ensures DialedNumbers(Tail(ps)) == numbers
  {
    NothingDialedInNothing();
    if |ps| == 1 {
      DialedAtNewline(ps[0], "");
      assert ps[0] + "\n" + "" == Tail(ps);
    } else {
      DialedInTail(ps[1..], numbers[1..]);
      DialedAtBlank(ps[0], Tail(ps[1..]));
      assert Tail(ps) == ps[0] + BLANK + Tail(ps[1..]);
      assert numbers == [numbers[0]] + numbers[1..];
    }
  }

  lemma NothingDialedInHeader()
    ensures DialedNumbers(Header()) == []
  {
    HeaderLinesArePlain();
    NothingDialedInComments(HeaderLines());
  }

  lemma NothingDialedInComments(lines: seq<string>)
    requires lines != [] && forall k :: 0 <= k < |lines| ==> IsComment(lines[k])
    ensures DialedNumbers(Join(lines, "\n")) == []
  {
    forall l | l in lines ensures "\n"[0] !in l {
      NoNewlineInLine(l);
    }
    SplitJoin(lines, "\n");
    KeepNoneDialed(lines);
  }

  lemma DialedInDocument(header: string, ps: seq<string>, numbers: seq<string>)
    requires DialedNumbers(header) == []
    requires |ps| == |numbers| && forall k :: 0 <= k < |ps| ==> DialedNumbers(ps[k]) == [numbers[k]]
    ensures DialedNumbers(Document(header, ps)) == numbers
  {
    NothingDialedInNothing();
    if ps == [] {
      DialedAtBlank(header, "");
      assert header + BLANK + "" == header + BLANK;
    } else {
      DialedAtBlank(header, "\n" + Tail(ps));
      assert "" + "\n" + Tail(ps) == "\n" + Tail(ps);
      DialedAtNewline("", Tail(ps));
      DialedInTail(ps, numbers);
    }
  }

  lemma FirstLineDials(number: string)
    requires |number| == 4 && AllOf(number, IsDigit)
    ensures DialedIn(MonitorLine(number)) == Some(number)
  {
    var line := MonitorLine(number);
    assert line[..9] == "exten => " && line[9..13] == number && line[13..16] == ",1,";
  }

  lemma DialedInParagraph(e: Extension)
    requires IsPlain(e)
    ensures DialedNumbers(DialParagraph(e)) == [NumberText(e.number)]
  {
    var lines := DialLines(e);
    DialLinesArePlain(e);
    forall l | l in lines ensures "\n"[0] !in l {
      NoNewlineInLine(l);
    }
    SplitJoin(lines, "\n");
    FirstLineDials(NumberText(e.number));
    assert lines[1][0] == ' ' && lines[2][0] == ' ' && lines[3][0] == ' ';
    KeepNoneDialed(lines[1..]);
    assert lines == [lines[0]] + lines[1..] && [lines[0]][..0] == [];
    KeepDialedConcat([lines[0]], lines[1..]);
  }

  /** The numbers the file dials are those of its records, in order. */
  lemma DialsAreThose(rows: seq<Extension>)
    requires ArePlainRows(rows)
    ensures DialedNumbers(DialText(rows)) == Each(rows, ShownNumber)
  {
    forall k | 0 <= k < |rows| ensures DialedNumbers(DialParagraph(rows[k])) == [ShownNumber(rows[k])] {
      DialedInParagraph(rows[k]);
    }
    NothingDialedInHeader();
    DialIsDocument(rows);
    DialedInDocument(Header(), Each(rows, DialParagraph), Each(rows, ShownNumber));
  }

  // ----- DE-29 and DE-30: hints and mailboxes -----

  lemma {:induction false} JoinTerminated(lines: seq<string>)
    requires lines != []
    ensures Join(lines, "\n") + "\n" == Terminated(lines, "\n")
  {
    if |lines| == 1 {
      assert Terminated(lines[1..], "\n") == "";
    } else {
      JoinTerminated(lines[1..]);
      assert lines[0] + "\n" + Join(lines[1..], "\n") + "\n" == lines[0] + "\n" + (Join(lines[1..], "\n") + "\n");
    }
  }

  lemma {:induction false} TerminatedConcat(a: seq<string>, b: seq<string>)
    ensures Terminated(a + b, "\n") == Terminated(a, "\n") + Terminated(b, "\n")
  {
    if a == [] {
      assert a + b == b;
    } else {
      assert (a + b)[1..] == a[1..] + b;
      TerminatedConcat(a[1..], b);
    }
  }

  function Blanks(entries: seq<string>): seq<string> { if entries == [] then [""] else ["", ""] }

  lemma BlanksTerminated()
    ensures Terminated([""], "\n") == "\n" && Terminated(["", ""], "\n") == BLANK
  {
    assert [""][1..] == [] && ["", ""][1..] == [""];
  }

  lemma ListingIsTerminated(header: seq<string>, entries: seq<string>)
    requires header != []
    ensures (Join([Join(header, "\n") + BLANK] + entries, "\n") + (if entries == [] then "" else "\n") ==
             Terminated(header + Blanks(entries) + entries, "\n"))
  {
    var h := Join(header, "\n");
    JoinTerminated(header);
    BlanksTerminated();
    TerminatedConcat(header, Blanks(entries));
    TerminatedConcat(header + Blanks(entries), entries);
    if entries == [] {
      assert [h + BLANK] + entries == [h + BLANK];
      assert h + BLANK == h + "\n" + "\n";
    } else {
      JoinOneMore(h + BLANK, entries, "\n");
      JoinTerminated(entries);
      assert h + BLANK + "\n" + Join(entries, "\n") + "\n" == (h + "\n") + BLANK + (Join(entries, "\n") + "\n");
    }
  }

  /** A list of entries behind the banner reads back line by line. */
  lemma ListingLines(header: seq<string>, entries: seq<string>)
    requires header != [] && forall k :: 0 <= k < |header| ==> IsComment(header[k])
    requires forall k :: 0 <= k < |entries| ==> IsLine(entries[k])
    ensures (SplitLines(Join([Join(header, "\n") + BLANK] + entries, "\n") + (if entries == [] then "" else "\n")) ==
             header + Blanks(entries) + entries)
  {
    ListingIsTerminated(header, entries);
    LinesOfTerminated(header + Blanks(entries) + entries);
  }

  lemma LinesOfReport(entries: seq<string>)
    requires forall k :: 0 <= k < |entries| ==> IsLine(entries[k])
    ensures SplitLines(Report(entries) + if entries == [] then "" else "\n") == HeaderLines() + Blanks(entries)
            + entries
  {
    HeaderLinesArePlain();
    ListingLines(HeaderLines(), entries);
  }

  /** Lines that hold no entry: comments and blank ones. */
  ghost predicate AreIdle(lines: seq<string>)
  {
    forall k :: 0 <= k < |lines| ==> lines[k] == "" || lines[k][0] == ';'
  }

  lemma FrontIsIdle(entries: seq<string>)
    ensures AreIdle(HeaderLines() + Blanks(entries))
  {
    HeaderLinesArePlain();
    IdleTogether(HeaderLines(), Blanks(entries));
  }

  lemma IdleTogether(header: seq<string>, blanks: seq<string>)
    requires forall k :: 0 <= k < |header| ==> IsComment(header[k])
    requires forall k :: 0 <= k < |blanks| ==> blanks[k] == ""
    ensures AreIdle(header + blanks)
  {
  }

  lemma KeepEntries(front: seq<string>, entries: seq<string>, prefix: string)
    requires prefix != "" && prefix[0] != ';' && AreIdle(front)
    requires forall k :: 0 <= k < |entries| ==> StartsWith(entries[k], prefix)
    ensures KeepPrefixed(front + entries, prefix) == entries
  {
    forall k | 0 <= k < |front| ensures !StartsWith(front[k], prefix) {
      if front[k] != "" { StartsOtherwise(front[k], prefix); }
    }
    KeepNonePrefixed(front, prefix);
    KeepAllPrefixed(entries, prefix);
    KeepPrefixedConcat(front, entries, prefix);
  }

  lemma HintStarts(e: Extension)
    ensures StartsWith(HintLine(e), "exten => ")
  {
    assert HintLine(e)[..9] == "exten => ";
  }

  /** The hints read from the file are those of its records, in order. */
  lemma HintsAreThose(rows: seq<Extension>)
    requires ArePlainRows(rows)
    ensures KeepPrefixed(SplitLines(HintsText(rows)), "exten => ") == Each(rows, HintLine)
  {
    var entries := Each(rows, HintLine);
    forall k | 0 <= k < |rows| ensures IsLine(entries[k]) && StartsWith(entries[k], "exten => ") {
      HintLineIsPlain(rows[k]);
      HintStarts(rows[k]);
    }
    LinesOfReport(entries);
    FrontIsIdle(entries);
    KeepEntries(HeaderLines() + Blanks(entries), entries, "exten => ");
  }

  lemma {:induction false} KeepMailboxesConcat(a: seq<string>, b: seq<string>)
    ensures KeepMailboxes(a + b) == KeepMailboxes(a) + KeepMailboxes(b)
  {
    if b == [] {
      assert a + b == a;
    } else {
      assert (a + b)[..|a + b| - 1] == a + b[..|b| - 1];
      KeepMailboxesConcat(a, b[..|b| - 1]);
    }
  }

  lemma {:induction false} KeepAllMailboxes(lines: seq<string>)
    requires forall k :: 0 <= k < |lines| ==> IsMailbox(lines[k])
    ensures KeepMailboxes(lines) == lines
  {
    if lines != [] {
      KeepAllMailboxes(lines[..|lines| - 1]);
    }
  }

  lemma {:induction false} KeepNoMailboxes(lines: seq<string>)
    requires AreIdle(lines)
    ensures KeepMailboxes(lines) == []
  {
    if lines != [] {
      KeepNoMailboxes(lines[..|lines| - 1]);
      CommentIsNoMailbox(lines[|lines| - 1]);
    }
  }

  lemma CommentIsNoMailbox(line: string)
    requires line == "" || line[0] == ';'
    ensures !IsMailbox(line)
  {
    if line == "" {
      FindIsFirst(line, " => ");
    } else {
      assert line[..1] == ";";
    }
  }

  lemma VoicemailLineIsMailbox(e: Extension)
    requires IsPlain(e)
    ensures IsMailbox(VoicemailLine(e))
  {
    var tail := PinOf(e) + "," + e.display + "," + EmailOf(e);
    assert VoicemailLine(e) == e.name + " => " + tail;
    ContainsMiddle(e.name, " => ", tail);
    assert VoicemailLine(e)[0] == e.name[0];
    StartsOtherwise(VoicemailLine(e), ";");
  }

  /** The mailboxes read from the file are those of its records, in order. */
  lemma MailboxesAreThose(rows: seq<Extension>)
    requires ArePlainRows(rows)
    ensures KeepMailboxes(SplitLines(VoicemailText(rows))) == Each(rows, VoicemailLine)
  {
    var entries := Each(rows, VoicemailLine);
    forall k | 0 <= k < |rows| ensures IsLine(entries[k]) && IsMailbox(entries[k]) {
      VoicemailLineIsPlain(rows[k]);
      VoicemailLineIsMailbox(rows[k]);
    }
    LinesOfReport(entries);
    FrontIsIdle(entries);
    MailboxesOf(HeaderLines() + Blanks(entries), entries);
  }

  lemma MailboxesOf(front: seq<string>, entries: seq<string>)
    requires AreIdle(front) && forall k :: 0 <= k < |entries| ==> IsMailbox(entries[k])
    ensures KeepMailboxes(front + entries) == entries
  {
    KeepNoMailboxes(front);
    KeepAllMailboxes(entries);
    KeepMailboxesConcat(front, entries);
  }
}
