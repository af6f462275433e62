/** What the inspector reads back from the text of a generated file. */
module ConfReading {
  import opened Prelude
  import opened Splitting
  import opened Text
  import opened ConfText
  import opened ConfRender
  import opened ConfLines
  import opened ConfInspect

  // ----- joining -----

  lemma {:induction false} JoinConcat<T>(a: seq<seq<T>>, b: seq<seq<T>>, sep: seq<T>)
    requires a != [] && b != []
    ensures Join(a + b, sep) == Join(a, sep) + sep + Join(b, sep)
  {
    if |a| == 1 {
      assert (a + b)[1..] == b;
    } else {
      assert (a + b)[1..] == a[1..] + b;
      JoinConcat(a[1..], b, sep);
    }
  }

  function Flat<T>(groups: seq<seq<T>>): seq<T>
  {
    if groups == [] then [] else Flat(groups[..|groups| - 1]) + groups[|groups| - 1]
  }

  /** A block is a group of paragraphs and a newline. */
  function Blocks(groups: seq<seq<string>>): (blocks: seq<string>)
    ensures |blocks| == |groups| && forall k :: 0 <= k < |groups| ==> blocks[k] == Tail(groups[k])
  {
    seq(|groups|, k requires 0 <= k < |groups| => Tail(groups[k]))
  }

  lemma TailOfTwo(a: seq<string>, b: seq<string>)
    requires a != [] && b != []
    ensures Tail(a + b) == Tail(a) + "\n" + Tail(b)
  {
    JoinConcat(a, b, BLANK);
    assert BLANK == "\n" + "\n";
  }

  lemma {:induction false} BlocksJoin(groups: seq<seq<string>>)
    requires groups != [] && forall k :: 0 <= k < |groups| ==> groups[k] != []
    ensures Join(Blocks(groups), "\n") == Tail(Flat(groups)) && Flat(groups) != []
  {
    var last := |groups| - 1;
    var front := groups[..last];
    assert Blocks(groups) == Blocks(front) + [Tail(groups[last])];
    if front == [] {
      assert Flat(groups) == groups[0];
    } else {
      BlocksJoin(front);
      JoinConcat(Blocks(front), [Tail(groups[last])], "\n");
      TailOfTwo(Flat(front), groups[last]);
    }
  }

  lemma Associate(a: string, b: string, c: string)
    ensures a + b + c == a + (b + c)
  {
  }

  lemma JoinOneMore(first: string, rest: seq<string>, sep: string)
    requires rest != []
    ensures Join([first] + rest, sep) == first + sep + Join(rest, sep)
  {
    assert ([first] + rest)[1..] == rest;
  }

  lemma BehindHeader(header: string, groups: seq<seq<string>>)
    requires forall k :: 0 <= k < |groups| ==> groups[k] != []
    ensures Join([header + BLANK] + Blocks(groups), "\n") == Document(header, Flat(groups))
  {
    if groups == [] {
      assert [header + BLANK] + Blocks(groups) == [header + BLANK];
    } else {
      BlocksBehindHeader(header, groups);
    }
  }

  lemma BlocksBehindHeader(header: string, groups: seq<seq<string>>)
    requires groups != [] && forall k :: 0 <= k < |groups| ==> groups[k] != []
    ensures Join([header + BLANK] + Blocks(groups), "\n") == Document(header, Flat(groups))
  {
    BlocksJoin(groups);
    JoinOneMore(header + BLANK, Blocks(groups), "\n");
    Associate(header + BLANK, "\n", Tail(Flat(groups)));
  }

  lemma ReportIsDocument(groups: seq<seq<string>>)
    requires forall k :: 0 <= k < |groups| ==> groups[k] != []
    ensures Report(Blocks(groups)) == Document(Header(), Flat(groups))
  {
    BehindHeader(Header(), groups);
  }

  // ----- keeping -----

  lemma {:induction false} KeepPrefixedConcat(a: seq<string>, b: seq<string>, prefix: string)
    ensures KeepPrefixed(a + b, prefix) == KeepPrefixed(a, prefix) + KeepPrefixed(b, prefix)
  {
    if b == [] {
      assert a + b == a;
    } else {
      assert (a + b)[..|a + b| - 1] == a + b[..|b| - 1];
      KeepPrefixedConcat(a, b[..|b| - 1], prefix);
    }
  }

  lemma StartsOtherwise(s: string, prefix: string)
    requires s != "" && prefix != "" && s[0] != prefix[0]
    ensures !StartsWith(s, prefix)
  {
    if |prefix| <= |s| {
      assert s[..|prefix|][0] == s[0];
    }
  }

  lemma {:induction false} KeepAllPrefixed(lines: seq<string>, prefix: string)
    requires forall k :: 0 <= k < |lines| ==> StartsWith(lines[k], prefix)
    ensures KeepPrefixed(lines, prefix) == lines
  {
    if lines != [] {
      KeepAllPrefixed(lines[..|lines| - 1], prefix);
    }
  }

  lemma {:induction false} KeepNonePrefixed(lines: seq<string>, prefix: string)
    requires forall k :: 0 <= k < |lines| ==> !StartsWith(lines[k], prefix)
    ensures KeepPrefixed(lines, prefix) == []
  {
    if lines != [] {
      KeepNonePrefixed(lines[..|lines| - 1], prefix);
    }
  }

  /** Of lines of which exactly one starts so, that one is kept. */
  lemma {:induction false} KeepOnePrefixed(lines: seq<string>, prefix: string, i: nat)
    requires i < |lines| && StartsWith(lines[i], prefix)
    requires forall k :: 0 <= k < |lines| && k != i ==> !StartsWith(lines[k], prefix)
    ensures KeepPrefixed(lines, prefix) == [lines[i]]
  {
    assert lines == lines[..i] + [lines[i]] + lines[i + 1..];
    KeepNonePrefixed(lines[..i], prefix);
    KeepNonePrefixed(lines[i + 1..], prefix);
    KeepAllPrefixed([lines[i]], prefix);
    KeepPrefixedConcat(lines[..i], [lines[i]], prefix);
    KeepPrefixedConcat(lines[..i] + [lines[i]], lines[i + 1..], prefix);
  }

  // ----- the header -----

  lemma CommentsMakeAParagraph(lines: seq<string>)
    requires lines != [] && forall k :: 0 <= k < |lines| ==> IsComment(lines[k])
    ensures IsParagraph(Join(lines, "\n")) && Join(lines, "\n")[0] == ';'
  {
    forall k | 0 <= k < |lines| ensures '\n' !in lines[k] { NoNewlineInLine(lines[k]); }
    TextLinesEndAtTheirEnd(lines);
    TextLinesMakeAParagraph(lines);
  }

  lemma HeaderIsParagraph()
    ensures IsParagraph(Header()) && Header()[0] == ';'
  {
    HeaderLinesArePlain();
    CommentsMakeAParagraph(HeaderLines());
  }

  /** The paragraphs of a file that start with `prefix`, which no comment does. */
  lemma KeptOfDocument(ps: seq<string>, prefix: string)
    requires forall k :: 0 <= k < |ps| ==> IsParagraph(ps[k])
    requires prefix != "" && prefix[0] != ';'
    ensures KeepPrefixed(Paragraphs(Document(Header(), ps)), prefix) == KeepPrefixed(ps, prefix)
  {
    HeaderIsParagraph();
    ParagraphsOfDocument(Header(), ps);
    var rest := if ps == [] then [""] else ps;
    KeepPrefixedConcat([Header()], rest, prefix);
    StartsOtherwise(Header(), prefix);
    KeepNonePrefixed([Header()], prefix);
    if ps == [] {
      KeepNonePrefixed([""], prefix);
    }
  }

  // ----- stanzas -----

  ghost predicate AreParagraphsOf(ps: seq<string>, lines: seq<seq<string>>)
  {
    |ps| == |lines| && forall k :: 0 <= k < |ps| ==> ArePlainLines(lines[k]) && ps[k] == Join(lines[k], "\n")
  }

  lemma {:induction false} EachLinesOf(ps: seq<string>, lines: seq<seq<string>>)
    requires AreParagraphsOf(ps, lines)
    ensures EachLines(ps) == lines
  {
    if ps != [] {
      var last := |ps| - 1;
      EachLinesOf(ps[..last], lines[..last]);
      LinesMakeAParagraph(lines[last]);
      assert lines == lines[..last] + [lines[last]];
    }
  }

  /** Stanzas written as a document are the sections read from it. */
  lemma SectionsOfDocument(ps: seq<string>, lines: seq<seq<string>>)
    requires AreParagraphsOf(ps, lines) && forall k :: 0 <= k < |lines| ==> StartsWith(ps[k], "[")
    ensures Sections(Document(Header(), ps)) == lines
  {
    forall k | 0 <= k < |ps| ensures IsParagraph(ps[k]) {
      LinesMakeAParagraph(lines[k]);
    }
    KeptOfDocument(ps, "[");
    KeepAllPrefixed(ps, "[");
    EachLinesOf(ps, lines);
  }

  // ----- pjsip_dynamic.conf -----

  function StanzaLines(e: Extension): seq<seq<string>> { [EndpointLines(e), AuthLines(e), AorLines(e)] }

  function StanzaTexts(e: Extension): seq<string>
  {
    [Join(EndpointLines(e), "\n"), Join(AuthLines(e), "\n"), Join(AorLines(e), "\n")]
  }

  function AllStanzaLines(rows: seq<Extension>): seq<seq<string>>
  {
    if rows == [] then [] else AllStanzaLines(rows[..|rows| - 1]) + StanzaLines(rows[|rows| - 1])
  }

  function AllStanzaTexts(rows: seq<Extension>): seq<string>
  {
    if rows == [] then [] else AllStanzaTexts(rows[..|rows| - 1]) + StanzaTexts(rows[|rows| - 1])
  }

  function StanzaGroups(rows: seq<Extension>): (groups: seq<seq<string>>)
    ensures |groups| == |rows| && forall k :: 0 <= k < |rows| ==> groups[k] == StanzaTexts(rows[k])
  {
    seq(|rows|, k requires 0 <= k < |rows| => StanzaTexts(rows[k]))
  }

  lemma GroupsOfFront(rows: seq<Extension>)
    requires rows != []
    ensures StanzaGroups(rows)[..|rows| - 1] == StanzaGroups(rows[..|rows| - 1])
    ensures StanzaGroups(rows)[|rows| - 1] == StanzaTexts(rows[|rows| - 1])
  {
  }

  lemma {:induction false} GroupsAreAllStanzas(rows: seq<Extension>)
    ensures Flat(StanzaGroups(rows)) == AllStanzaTexts(rows)
  {
    if rows != [] {
      GroupsAreAllStanzas(rows[..|rows| - 1]);
      GroupsOfFront(rows);
    }
  }

  lemma ThreeInATail(a: string, b: string, c: string)
    ensures Tail([a, b, c]) == a + BLANK + b + BLANK + c + "\n"
  {
    assert [a, b, c] == [a] + [b, c] && [b, c] == [b] + [c];
    JoinOneMore(a, [b, c], BLANK);
    JoinOneMore(b, [c], BLANK);
    assert a + BLANK + (b + BLANK + c) == a + BLANK + b + BLANK + c;
  }

  lemma BlockIsTail(e: Extension)
    ensures PjsipBlock(e) == Tail(StanzaTexts(e))
  {
    ThreeInATail(Join(EndpointLines(e), "\n"), Join(AuthLines(e), "\n"), Join(AorLines(e), "\n"));
  }

  lemma PjsipIsDocument(rows: seq<Extension>)
    ensures PjsipText(rows) == Document(Header(), AllStanzaTexts(rows))
  {
    forall k | 0 <= k < |rows| ensures PjsipBlock(rows[k]) == Blocks(StanzaGroups(rows))[k] {
      BlockIsTail(rows[k]);
    }
    assert Each(rows, PjsipBlock) == Blocks(StanzaGroups(rows));
    ReportIsDocument(StanzaGroups(rows));
    GroupsAreAllStanzas(rows);
  }

  lemma {:induction false} StanzasArePlain(rows: seq<Extension>)
    requires forall k :: 0 <= k < |rows| ==> IsPlain(rows[k])
    ensures AreParagraphsOf(AllStanzaTexts(rows), AllStanzaLines(rows))
    ensures forall k :: 0 <= k < |AllStanzaTexts(rows)| ==> StartsWith(AllStanzaTexts(rows)[k], "[")
  {
    if rows != [] {
      var last := |rows| - 1;
      StanzasArePlain(rows[..last]);
      StanzasOfOneArePlain(rows[last]);
    }
  }

  lemma JoinStartsWithItsFirstLine(lines: seq<string>, prefix: string)
    requires lines != [] && StartsWith(lines[0], prefix)
    ensures StartsWith(Join(lines, "\n"), prefix)
  {
    var p := Join(lines, "\n");
    assert p[..|lines[0]|] == lines[0];
    assert p[..|prefix|] == lines[0][..|prefix|];
  }

  lemma HeadingsStartWithABracket(name: string)
    ensures StartsWith(EndpointHeading(name), "[") && StartsWith(Heading(name), "[")
  {
    assert EndpointHeading(name)[0] == '[' && Heading(name)[0] == '[';
  }

  lemma StanzasOfOneArePlain(e: Extension)
    requires IsPlain(e)
    ensures AreParagraphsOf(StanzaTexts(e), StanzaLines(e))
    ensures forall k :: 0 <= k < 3 ==> StartsWith(StanzaTexts(e)[k], "[")
  {
    EndpointLinesArePlain(e);
    AuthLinesArePlain(e);
    AorLinesArePlain(e);
    HeadingsStartWithABracket(e.name);
    JoinStartsWithItsFirstLine(EndpointLines(e), "[");
    JoinStartsWithItsFirstLine(AuthLines(e), "[");
    JoinStartsWithItsFirstLine(AorLines(e), "[");
  }

  /** The sections of the written file are the stanzas of its records. */
  lemma SectionsOfPjsip(rows: seq<Extension>)
    requires forall k :: 0 <= k < |rows| ==> IsPlain(rows[k])
    ensures Sections(PjsipText(rows)) == AllStanzaLines(rows)
  {
    PjsipIsDocument(rows);
    StanzasArePlain(rows);
    SectionsOfDocument(AllStanzaTexts(rows), AllStanzaLines(rows));
  }

  // ----- one stanza for each record -----

  lemma {:induction false} MatchingConcat(a: seq<seq<string>>, b: seq<seq<string>>, heading: string,
                                          kind: Option<string>)
    ensures Matching(a + b, heading, kind) == Matching(a, heading, kind) + Matching(b, heading, kind)
  {
    if b == [] {
      assert a + b == a;
    } else {
      assert (a + b)[..|a + b| - 1] == a + b[..|b| - 1];
      MatchingConcat(a, b[..|b| - 1], heading, kind);
    }
  }

  lemma MatchingOfThree(a: seq<string>, b: seq<string>, c: seq<string>, heading: string, kind: Option<string>)
    ensures (Matching([a, b, c], heading, kind) ==
             (if IsSection(a, heading, kind) then [a] else []) + (if IsSection(b, heading, kind) then [b] else [])
             + (if IsSection(c, heading, kind) then [c] else []))
  {
    MatchingOneMore([], a, heading, kind);
    MatchingOneMore([a], b, heading, kind);
    MatchingOneMore([a, b], c, heading, kind);
    assert [] + [a] == [a] && [a] + [b] == [a, b] && [a, b] + [c] == [a, b, c];
  }

  lemma MatchingOneMore(sections: seq<seq<string>>, last: seq<string>, heading: string, kind: Option<string>)
    ensures Matching(sections + [last], heading, kind) == Matching(sections, heading, kind)
            + if IsSection(last, heading, kind) then [last] else []
  {
    assert (sections + [last])[..|sections|] == sections;
  }

  lemma HeadingsDiffer(a: string, b: string)
    ensures EndpointHeading(a) != Heading(b)
    ensures EndpointHeading(a) == EndpointHeading(b) <==> a == b
    ensures Heading(a) == Heading(b) <==> a == b
  {
    var x, y := EndpointHeading(a), Heading(b);
    assert x[|x| - 1] == ')' && y[|y| - 1] == ']';
    assert EndpointHeading(a)[1..|a| + 1] == a && EndpointHeading(b)[1..|b| + 1] == b;
    assert Heading(a)[1..|a| + 1] == a && Heading(b)[1..|b| + 1] == b;
  }

  lemma KindsDiffer(e: Extension)
    requires 1 <= ContactsOf(e) <= 3
    ensures TypeLine("auth") in AuthLines(e) && TypeLine("auth") !in AorLines(e)
    ensures TypeLine("aor") in AorLines(e) && TypeLine("aor") !in AuthLines(e)
  {
    assert AuthLines(e)[1] == TypeLine("auth") && AorLines(e)[1] == TypeLine("aor");
    assert TypeLine("auth")[6] == 'u' && TypeLine("aor")[6] == 'o';
    forall k | 0 <= k < 5 && k != 1 ensures AuthLines(e)[k][0] != 't' {
    }
    forall k | 0 <= k < 4 && k != 1 ensures AorLines(e)[k][0] != 't' {
    }
  }

  /** The three ways the inspector asks for a stanza. */
  datatype Asked = AskEndpoint | AskAuth | AskAor

  function Found(sections: seq<seq<string>>, asked: Asked, name: string): seq<seq<string>>
  {
    match asked
    case AskEndpoint => Matching(sections, EndpointHeading(name), None)
    case AskAuth => Matching(sections, Heading(name), Some("auth"))
    case AskAor => Matching(sections, Heading(name), Some("aor"))
  }

  function Answer(asked: Asked, e: Extension): seq<string>
  {
    match asked
    case AskEndpoint => EndpointLines(e)
    case AskAuth => AuthLines(e)
    case AskAor => AorLines(e)
  }

  lemma FoundConcat(a: seq<seq<string>>, b: seq<seq<string>>, asked: Asked, name: string)
    ensures Found(a + b, asked, name) == Found(a, asked, name) + Found(b, asked, name)
  {
    match asked
    case AskEndpoint => MatchingConcat(a, b, EndpointHeading(name), None);
    case AskAuth => MatchingConcat(a, b, Heading(name), Some("auth"));
    case AskAor => MatchingConcat(a, b, Heading(name), Some("aor"));
  }

  /** Which of a record's stanzas answers. */
  lemma FoundOfRecord(e: Extension, asked: Asked, name: string)
    requires 1 <= ContactsOf(e) <= 3
    ensures Found(StanzaLines(e), asked, name) == if e.name == name then [Answer(asked, e)] else []
  {
    HeadingsDiffer(e.name, name);
    HeadingsDiffer(name, e.name);
    KindsDiffer(e);
    match asked
    case AskEndpoint => MatchingOfThree(EndpointLines(e), AuthLines(e), AorLines(e), EndpointHeading(name), None);
    case AskAuth => MatchingOfThree(EndpointLines(e), AuthLines(e), AorLines(e), Heading(name), Some("auth"));
    case AskAor => MatchingOfThree(EndpointLines(e), AuthLines(e), AorLines(e), Heading(name), Some("aor"));
  }

  /** In groups of sections where only the i-th has an answer, that is the answer. */
  lemma {:induction false} FoundInGroups(groups: seq<seq<seq<string>>>, asked: Asked, name: string, i: nat,
                                         answer: seq<string>)
    requires forall k :: 0 <= k < |groups| ==> Found(groups[k], asked, name) == if k == i then [answer] else []
    ensures Found(Flat(groups), asked, name) == if i < |groups| then [answer] else []
  {
    if groups == [] {
      assert Found([], asked, name) == [];
    } else {
      var last := |groups| - 1;
      FoundInGroups(groups[..last], asked, name, i, answer);
      FoundConcat(Flat(groups[..last]), groups[last], asked, name);
      var before := Found(Flat(groups[..last]), asked, name);
      assert [] + before == before + [] == before;
    }
  }

  function StanzaLineGroups(rows: seq<Extension>): (groups: seq<seq<seq<string>>>)
    ensures |groups| == |rows| && forall k :: 0 <= k < |rows| ==> groups[k] == StanzaLines(rows[k])
  {
    seq(|rows|, k requires 0 <= k < |rows| => StanzaLines(rows[k]))
  }

  lemma LineGroupsOfFront(rows: seq<Extension>)
    requires rows != []
    ensures StanzaLineGroups(rows)[..|rows| - 1] == StanzaLineGroups(rows[..|rows| - 1])
    ensures StanzaLineGroups(rows)[|rows| - 1] == StanzaLines(rows[|rows| - 1])
  {
  }

  lemma {:induction false} LineGroupsAreAllStanzas(rows: seq<Extension>)
    ensures Flat(StanzaLineGroups(rows)) == AllStanzaLines(rows)
  {
    if rows != [] {
      LineGroupsAreAllStanzas(rows[..|rows| - 1]);
      LineGroupsOfFront(rows);
    }
  }

  /** Only the record with the name answers. */
  lemma FoundOfRecords(rows: seq<Extension>, asked: Asked, i: nat)
    requires i < |rows| && forall k :: 0 <= k < |rows| ==> 1 <= ContactsOf(rows[k]) <= 3
    requires forall k :: 0 <= k < |rows| && k != i ==> rows[k].name != rows[i].name
    ensures Found(AllStanzaLines(rows), asked, rows[i].name) == [Answer(asked, rows[i])]
  {
    var groups, name, answer := StanzaLineGroups(rows), rows[i].name, Answer(asked, rows[i]);
    forall k | 0 <= k < |groups| ensures Found(groups[k], asked, name) == if k == i then [answer] else [] {
      FoundOfRecord(rows[k], asked, name);
    }
    FoundInGroups(groups, asked, name, i, answer);
    LineGroupsAreAllStanzas(rows);
  }

  /** Each record finds its own three stanzas in the written file. */
  lemma StanzasAreFound(rows: seq<Extension>, i: nat)
    requires i < |rows| && forall k :: 0 <= k < |rows| ==> IsPlain(rows[k])
    requires forall j, k :: 0 <= j < k < |rows| ==> rows[j].name != rows[k].name
    ensures Endpoint(PjsipText(rows), rows[i]) == EndpointLines(rows[i])
    ensures Auth(PjsipText(rows), rows[i]) == AuthLines(rows[i])
    ensures Aor(PjsipText(rows), rows[i]) == AorLines(rows[i])
  {
    SectionsOfPjsip(rows);
    FoundOfRecords(rows, AskEndpoint, i);
    FoundOfRecords(rows, AskAuth, i);
    FoundOfRecords(rows, AskAor, i);
  }
}
