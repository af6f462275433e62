/** The AMI text format: a printer for actions and a parser for blocks, which must agree. */
module AmiProtocol {
  import opened Prelude
  import opened Splitting
  import opened Text
  import opened AmiFraming

  /** One item of an action dictionary; the value is already text. */
  datatype Field = Field(key: string, value: string)

  type Block = Event

  const BREAK: string := "\r\n"

  // ----- printer -----

  predicate IsKey(key: string)
  {
    1 <= |key| <= 64 && forall i :: 0 <= i < |key| ==> '!' <= key[i] <= '~' && key[i] != ':'
  }

  predicate IsField(f: Field)
  {
    IsKey(f.key) && '\r' !in f.value && '\n' !in f.value
  }

  function LineOf(f: Field): string { f.key + ": " + f.value }

  function LinesOf(fields: seq<Field>): (lines: seq<string>)
    ensures |lines| == |fields| && forall k :: 0 <= k < |fields| ==> lines[k] == LineOf(fields[k])
  {
    seq(|fields|, k requires 0 <= k < |fields| => LineOf(fields[k]))
  }

  ghost predicate IsAction(fields: seq<Field>)
  {
    fields != [] && forall k :: 0 <= k < |fields| ==> IsField(fields[k])
  }

  function ActionText(fields: seq<Field>): string
  {
    Join(LinesOf(fields), BREAK) + END_OF_FRAME
  }

  method BuildAction(fields: seq<Field>) returns (action: Option<string>)
    ensures action.Some? <==> IsAction(fields)
    ensures action.Some? ==> action.value == ActionText(fields)
  {
    if fields == [] {
      return None;
    }
    var lines: seq<string> := [];
    for i := 0 to |fields|
      invariant |lines| == i
      invariant forall k :: 0 <= k < i ==> IsField(fields[k]) && lines[k] == LineOf(fields[k])
    {
      if !IsKey(fields[i].key) {
        return None;
      }
      if '\r' in fields[i].value || '\n' in fields[i].value {
        return None;
      }
      lines := lines + [LineOf(fields[i])];
    }
    assert lines == LinesOf(fields);
    return Some(Join(lines, BREAK) + END_OF_FRAME);
  }

  // ----- parser -----

  /** What one more line does to a block. */
  function WithLine(block: Block, line: string): Block
  {
    match Find(line, ":")
    case None => block
    case Some(i) => block[Strip(line[..i]) := Strip(line[i + 1..])]
  }

  function BlockOf(lines: seq<string>): Block
  {
    if lines == [] then map[] else WithLine(BlockOf(lines[..|lines| - 1]), lines[|lines| - 1])
  }

  /** The block of one paragraph, if there is any. */
  function BlocksOfOne(paragraph: string): seq<Block>
  {
    var text := Trim(paragraph, IsNewline);
    if text == "" then [] else
    var block := BlockOf(Split(text, "\n"));
    if block == map[] then [] else [block]
  }

  function BlocksOf(paragraphs: seq<string>): seq<Block>
  {
    if paragraphs == [] then []
    else BlocksOf(paragraphs[..|paragraphs| - 1]) + BlocksOfOne(paragraphs[|paragraphs| - 1])
  }

  function Parsed(raw: string): seq<Block>
  {
    BlocksOf(Split(Unix(raw), "\n\n"))
  }

  method ParseAmiBlocks(raw: string) returns (blocks: seq<Block>)
    ensures blocks == Parsed(raw)
  {
    var paragraphs := Split(Unix(raw), "\n\n");
    blocks := [];
    for i := 0 to |paragraphs|
      invariant blocks == BlocksOf(paragraphs[..i])
    {
      assert paragraphs[..i + 1] == paragraphs[..i] + [paragraphs[i]];
      BlocksOfOneMore(paragraphs[..i], paragraphs[i]);
      var text := Trim(paragraphs[i], IsNewline);
      if text == "" {
        continue;
      }
      var block := ParseLines(Split(text, "\n"));
      if block != map[] {
        blocks := blocks + [block];
      }
    }
    assert paragraphs[..|paragraphs|] == paragraphs;
  }

  /** The inner loop of parse_ami_blocks. */
  method ParseLines(lines: seq<string>) returns (block: Block)
    ensures block == BlockOf(lines)
  {
    block := map[];
    for j := 0 to |lines|
      invariant block == BlockOf(lines[..j])
    {
      assert lines[..j + 1][..j] == lines[..j];
      block := WithLine(block, lines[j]);
    }
    assert lines[..|lines|] == lines;
  }

  // ----- round trip -----

  /** The items of a dictionary: no key twice. */
  ghost predicate IsDictionary(fields: seq<Field>)
  {
    forall j, k :: 0 <= j < k < |fields| ==> fields[j].key != fields[k].key
  }

  /** A block holds exactly the fields of an action, values without surrounding white space. */
  ghost predicate ReadsBack(fields: seq<Field>, block: Block)
  {
    && (forall k :: 0 <= k < |fields| ==> fields[k].key in block && block[fields[k].key] == Strip(fields[k].value))
    && (forall key :: key in block ==> exists k :: 0 <= k < |fields| && fields[k].key == key)
  }

  lemma {:induction false} KeyIsStripped(key: string)
    requires forall i :: 0 <= i < |key| ==> !IsSpace(key[i])
    ensures Strip(key) == key
  {
  }

  lemma LineReadsBack(f: Field, block: Block)
    requires IsField(f)
    ensures WithLine(block, LineOf(f)) == block[f.key := Strip(f.value)]
  {
    var line := LineOf(f);
    forall j: nat | j < |f.key| ensures !At(line, ":", j) {
      assert line[j] == f.key[j];
      NotAt(line, ":", j, 0);
    }
    assert line[|f.key|..|f.key| + 1] == ":";
    FindIs(line, ":", |f.key|);
    KeyIsStripped(f.key);
    var value := line[|f.key| + 1..];
    assert value == " " + f.value && value[1..] == f.value && IsSpace(' ');
    assert TrimStart(value, IsSpace) == TrimStart(f.value, IsSpace);
    assert line[..|f.key|] == f.key;
  }

  lemma ReadOneMore(fields: seq<Field>, f: Field, block: Block)
    requires IsDictionary(fields + [f]) && ReadsBack(fields, block)
    ensures ReadsBack(fields + [f], block[f.key := Strip(f.value)])
  {
    var more, after := fields + [f], block[f.key := Strip(f.value)];
    forall k | 0 <= k < |more| ensures more[k].key in after && after[more[k].key] == Strip(more[k].value) {
      assert k < |fields| ==> more[k] == fields[k] && more[k].key != more[|fields|].key;
    }
    forall key | key in after ensures exists k :: 0 <= k < |more| && more[k].key == key {
      if key == f.key {
        assert more[|fields|].key == key;
      } else {
        var k :| 0 <= k < |fields| && fields[k].key == key;
        assert more[k].key == key;
      }
    }
  }

  lemma {:induction false} LinesReadBack(fields: seq<Field>)
    requires IsDictionary(fields) && forall k :: 0 <= k < |fields| ==> IsField(fields[k])
    ensures ReadsBack(fields, BlockOf(LinesOf(fields)))
  {
    if fields != [] {
      var last := |fields| - 1;
      var front, f := fields[..last], fields[last];
      LinesReadBack(front);
      assert LinesOf(fields)[..last] == LinesOf(front) && front + [f] == fields;
      LineReadsBack(f, BlockOf(LinesOf(front)));
      ReadOneMore(front, f, BlockOf(LinesOf(front)));
    }
  }

  // ----- whole actions -----

  function ActionBodies(actions: seq<seq<Field>>): (bodies: seq<string>)
    ensures |bodies| == |actions|
    ensures forall k :: 0 <= k < |actions| ==> bodies[k] == Join(LinesOf(actions[k]), BREAK)
  {
    seq(|actions|, k requires 0 <= k < |actions| => Join(LinesOf(actions[k]), BREAK))
  }

  /** The actions written one after the other. */
  function Wire(actions: seq<seq<Field>>): string
  {
    Terminated(ActionBodies(actions), END_OF_FRAME)
  }

  ghost predicate AreActions(actions: seq<seq<Field>>)
  {
    forall k :: 0 <= k < |actions| ==> IsAction(actions[k]) && IsDictionary(actions[k])
  }

  lemma LinesAreLines(fields: seq<Field>)
    requires IsAction(fields)
    ensures forall k :: 0 <= k < |fields| ==>
              var line := LinesOf(fields)[k]; line != "" && '\r' !in line && '\n' !in line
  {
  }

  /** An action holds a blank line at its end and nowhere before. */
  lemma BlankLineOnlyAtTheEnd(fields: seq<Field>)
    requires IsAction(fields)
    ensures Find(ActionText(fields), END_OF_FRAME) == Some(|ActionText(fields)| - 4)
    ensures EndsAtItsEnd(Join(LinesOf(fields), BREAK), END_OF_FRAME)
    ensures Join(LinesOf(fields), BREAK) != ""
  {
    LinesAreLines(fields);
    assert BREAK + BREAK == END_OF_FRAME;
    JoinedEndsAtItsEnd(LinesOf(fields), BREAK);
  }

  /** What a paragraph of an action looks like. */
  lemma ParagraphShape(fields: seq<Field>)
    requires IsAction(fields)
    ensures var lines, paragraph := LinesOf(fields), Join(LinesOf(fields), "\n");
            && paragraph != "" && paragraph[0] != '\n' && paragraph[|paragraph| - 1] != '\n'
            && EndsAtItsEnd(paragraph, "\n\n")
            && Split(paragraph, "\n") == lines
  {
    var lines := LinesOf(fields);
    LinesAreLines(fields);
    assert lines[|lines| - 1] != "" && lines[0] != "" && "\n" + "\n" == "\n\n";
    JoinedEndsAtItsEnd(lines, "\n");
    JoinEndsInItsLastLine(lines, "\n");
    SplitJoin(lines, "\n");
  }

  lemma BlocksOfOneIs(paragraph: string, lines: seq<string>)
    requires paragraph != "" && paragraph[0] != '\n' && paragraph[|paragraph| - 1] != '\n'
    requires Split(paragraph, "\n") == lines && BlockOf(lines) != map[]
    ensures BlocksOfOne(paragraph) == [BlockOf(lines)]
  {
    assert TrimStart(paragraph, IsNewline) == paragraph;
  }

  /** The paragraph of one action parses to one block, its own. */
  lemma ParagraphReadsBack(fields: seq<Field>)
    requires IsAction(fields) && IsDictionary(fields)
    ensures BlocksOfOne(Join(LinesOf(fields), "\n")) == [BlockOf(LinesOf(fields))]
  {
    ParagraphShape(fields);
    LinesReadBack(fields);
    assert fields[0].key in BlockOf(LinesOf(fields));
    BlocksOfOneIs(Join(LinesOf(fields), "\n"), LinesOf(fields));
  }

  lemma BlocksOfOneMore(paragraphs: seq<string>, last: string)
    ensures BlocksOf(paragraphs + [last]) == BlocksOf(paragraphs) + BlocksOfOne(last)
  {
    assert (paragraphs + [last])[..|paragraphs|] == paragraphs;
  }

  function Paragraphs(actions: seq<seq<Field>>): (paragraphs: seq<string>)
    ensures |paragraphs| == |actions|
    ensures forall k :: 0 <= k < |actions| ==> paragraphs[k] == Join(LinesOf(actions[k]), "\n")
  {
    seq(|actions|, k requires 0 <= k < |actions| => Join(LinesOf(actions[k]), "\n"))
  }

  lemma {:induction false} UnixOfWire(actions: seq<seq<Field>>)
    requires AreActions(actions)
    ensures Unix(Wire(actions)) == Terminated(Paragraphs(actions), "\n\n")
  {
    if actions != [] {
      var lines, rest := LinesOf(actions[0]), Wire(actions[1..]);
      assert ActionBodies(actions)[1..] == ActionBodies(actions[1..]);
      assert Paragraphs(actions)[1..] == Paragraphs(actions[1..]);
      LinesAreLines(actions[0]);
      assert Wire(actions) == Join(lines, BREAK) + ("\r\n" + ("\r\n" + rest));
      UnixOfLines(lines, "\r\n" + ("\r\n" + rest));
      UnixOfBreak("\r\n" + rest);
      UnixOfBreak(rest);
      UnixOfWire(actions[1..]);
      assert Join(lines, "\n") + ("\n" + ("\n" + Unix(rest))) == Join(lines, "\n") + "\n\n" + Unix(rest);
    }
  }

  function BlocksFor(actions: seq<seq<Field>>): (blocks: seq<Block>)
    ensures |blocks| == |actions|
    ensures forall k :: 0 <= k < |actions| ==> blocks[k] == BlockOf(LinesOf(actions[k]))
  {
    seq(|actions|, k requires 0 <= k < |actions| => BlockOf(LinesOf(actions[k])))
  }

  lemma {:induction false} OneBlockEach(paragraphs: seq<string>, blocks: seq<Block>)
    requires |paragraphs| == |blocks|
    requires forall k :: 0 <= k < |blocks| ==> BlocksOfOne(paragraphs[k]) == [blocks[k]]
    ensures BlocksOf(paragraphs) == blocks
  {
    if blocks != [] {
      var last := |blocks| - 1;
      var front := paragraphs[..last];
      OneBlockEach(front, blocks[..last]);
      BlocksOfOneMore(front, paragraphs[last]);
      assert paragraphs == front + [paragraphs[last]] && blocks == blocks[..last] + [blocks[last]];
    }
  }

  lemma ParagraphsReadBack(actions: seq<seq<Field>>)
    requires AreActions(actions)
    ensures BlocksOf(Paragraphs(actions)) == BlocksFor(actions)
  {
    forall k | 0 <= k < |actions| ensures BlocksOfOne(Paragraphs(actions)[k]) == [BlocksFor(actions)[k]] {
      ParagraphReadsBack(actions[k]);
    }
    OneBlockEach(Paragraphs(actions), BlocksFor(actions));
  }

  lemma ParagraphsOfWire(actions: seq<seq<Field>>)
    requires AreActions(actions)
    ensures Split(Unix(Wire(actions)), "\n\n") == Paragraphs(actions) + [""]
  {
    var paragraphs, sep := Paragraphs(actions), "\n\n";
    forall p | p in paragraphs ensures EndsAtItsEnd(p, sep) {
      var k :| 0 <= k < |paragraphs| && paragraphs[k] == p;
      ParagraphShape(actions[k]);
    }
    UnixOfWire(actions);
    ClosedOfTerminated(paragraphs, sep);
    SplitIsClosedAndOpen(Terminated(paragraphs, sep), sep);
  }

  /** Parsing any sequence of written actions gives back exactly their fields, in order. */
  lemma RoundTrip(actions: seq<seq<Field>>)
    requires AreActions(actions)
    ensures var blocks := Parsed(Wire(actions));
            && |blocks| == |actions|
            && forall k :: 0 <= k < |actions| ==> ReadsBack(actions[k], blocks[k])
  {
    ParagraphsOfWire(actions);
    BlocksOfOneMore(Paragraphs(actions), "");
    ParagraphsReadBack(actions);
    assert Parsed(Wire(actions)) == BlocksFor(actions);
    forall k | 0 <= k < |actions| ensures ReadsBack(actions[k], BlocksFor(actions)[k]) {
      LinesReadBack(actions[k]);
    }
  }

  /** The reader's framing and the parser together: each frame of a wire of actions is one block, the
      block of that action. */
  lemma FramesReadBack(actions: seq<seq<Field>>)
    requires AreActions(actions)
    ensures var frames := Frames(Wire(actions));
            && |frames| == |actions|
            && (forall k :: 0 <= k < |actions| ==>
                  && |Parsed(frames[k])| == 1
                  && ReadsBack(actions[k], Parsed(frames[k])[0]))
  {
    var bodies := ActionBodies(actions);
    forall k | 0 <= k < |bodies|
      ensures EndsAtItsEnd(bodies[k], END_OF_FRAME) && bodies[k] != ""
      ensures |Parsed(bodies[k])| == 1 && ReadsBack(actions[k], Parsed(bodies[k])[0])
    {
      BlankLineOnlyAtTheEnd(actions[k]);
      BodyReadsBack(actions[k]);
    }
    ClosedOfTerminated(bodies, END_OF_FRAME);
    NonEmptyKeepsAll(bodies);
  }

  lemma {:induction false} NonEmptyKeepsAll(frames: seq<string>)
    requires forall k :: 0 <= k < |frames| ==> frames[k] != ""
    ensures NonEmpty(frames) == frames
  {
    if frames != [] {
      NonEmptyKeepsAll(frames[1..]);
    }
  }

  /** The body of one action, as _dispatch_frame sees it. */
  lemma BodyReadsBack(fields: seq<Field>)
    requires IsAction(fields) && IsDictionary(fields)
    ensures Parsed(Join(LinesOf(fields), BREAK)) == [BlockOf(LinesOf(fields))]
    ensures ReadsBack(fields, BlockOf(LinesOf(fields)))
  {
    var lines := LinesOf(fields);
    LinesAreLines(fields);
    UnixOfLines(lines, "");
    var paragraph := Join(lines, "\n");
    assert Join(lines, BREAK) + "" == Join(lines, BREAK) && paragraph + Unix("") == paragraph;
    ParagraphShape(fields);
    NoBreakInside(paragraph, "\n\n");
    SplitNone(paragraph, "\n\n");
    ParagraphReadsBack(fields);
    BlocksOfOneMore([], paragraph);
    assert [] + [paragraph] == [paragraph];
    LinesReadBack(fields);
  }

  lemma NoBreakInside(part: string, end: string)
    requires end != "" && EndsAtItsEnd(part, end)
    ensures forall j :: 0 <= j ==> !At(part, end, j)
  {
    FindIsFirst(part + end, end);
    forall j: nat ensures !At(part, end, j) {
      if j + |end| <= |part| {
        assert !At(part + end, end, j);
        assert (part + end)[j..j + |end|] == part[j..j + |end|];
      }
    }
  }
}
