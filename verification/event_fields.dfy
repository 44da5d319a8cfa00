/**
 Event blocks in any form the event stream format allows: data fields with or without a space after the
 colon, comments and other fields among them, and lines that end with or without a carriage return.
 The module proves which messages a reader delivers of them.
 */
module EventFields {
  import opened Results
  import opened EventStream

  datatype Field = Data(value: string, spaced: bool) | BareData | Other(line: string)

  datatype End = Newline | ReturnNewline

  datatype Line = Line(field: Field, end: End)

  /** Lines and the line end of the blank line after them. */
  datatype Block = Block(lines: seq<Line>, blank: End)

  /** No line end inside, and no carriage return that would belong to the line end. */
  predicate OneLine(s: string) {
    (forall i | 0 <= i < |s| :: s[i] != '\n') && (s != "" ==> s[|s| - 1] != '\r')
  }

  predicate LegalField(f: Field) {
    match f
    case Data(v, spaced) => OneLine(v) && (!spaced && v != "" ==> v[0] != ' ')
    case BareData => true
    case Other(l) => OneLine(l) && l != "" && l != "data" && !("data:" <= l)
  }

  function FieldText(f: Field): string {
    match f
    case Data(v, spaced) => if spaced then "data: " + v else "data:" + v
    case BareData => "data"
    case Other(l) => l
  }

  function EndText(e: End): string {
    if e.Newline? then "\n" else "\r\n"
  }

  predicate LegalBlock(b: Block) {
    b.lines != [] && forall l | l in b.lines :: LegalField(l.field)
  }

  /** The lines of a block up to the end of the last, which belongs to the separator. */
  function Content(lines: seq<Line>): string
    requires lines != []
  {
    var first := FieldText(lines[0].field);
    if |lines| == 1 then first else first + EndText(lines[0].end) + Content(lines[1..])
  }

  function BlockText(b: Block): string
    requires LegalBlock(b)
  {
    Content(b.lines) + (EndText(b.lines[|b.lines| - 1].end) + EndText(b.blank))
  }

  /** The values of the data fields, in order. */
  function Values(lines: seq<Line>): seq<string> {
    if lines == [] then [] else
      (match lines[0].field
       case Data(v, _) => [v]
       case BareData => [""]
       case Other(_) => []) + Values(lines[1..])
  }

  /** The messages the blocks carry: none for a block without a data field. */
  function Messages(bs: seq<Block>): seq<string> {
    if bs == [] then [] else
      (if Values(bs[0].lines) == [] then [] else [Join(Values(bs[0].lines))]) + Messages(bs[1..])
  }

  function StreamText(bs: seq<Block>): string
    requires forall b | b in bs :: LegalBlock(b)
  {
    if bs == [] then "" else BlockText(bs[0]) + StreamText(bs[1..])
  }

  // ----- Lines of a block -----

  lemma FieldIsOneLine(f: Field)
    requires LegalField(f)
    ensures OneLine(FieldText(f)) && FieldText(f) != ""
  {
    match f
    case Data(v, spaced) =>
      var head := if spaced then "data: " else "data:";
      assert FieldText(f) == head + v;
    case _ =>
  }

  lemma FieldIsRead(f: Field)
    requires LegalField(f)
    ensures LineData(FieldText(f)) ==
      match f
      case Data(v, _) => Some(v)
      case BareData => Some("")
      case Other(_) => None
  {
    match f
    case Data(v, spaced) =>
      if spaced {
        assert FieldText(f)[5..] == " " + v && (" " + v)[1..] == v;
      } else {
        assert FieldText(f)[5..] == v;
      }
    case _ =>
  }

  lemma LineAndEnd(line: string, e: End, rest: string)
    requires OneLine(line)
    ensures BlockLines(line + EndText(e) + rest) == [line] + BlockLines(rest)
  {
    if e.Newline? {
      FirstLine(line, rest);
    } else {
      assert line + "\r\n" + rest == (line + "\r") + "\n" + rest;
      FirstLine(line + "\r", rest);
    }
  }

  /** Splitting the content at its line ends and keeping the data fields gives the values. */
  lemma {:induction false} ContentIsRead(lines: seq<Line>)
    requires lines != [] && forall l | l in lines :: LegalField(l.field)
    ensures DataOf(BlockLines(Content(lines))) == Values(lines)
  {
    hide BlockLines, DataOf, LegalField, FieldText;
    var f := lines[0].field;
    FieldIsOneLine(f);
    FieldIsRead(f);
    if |lines| == 1 {
      NoNewline(FieldText(f));
      DataOfCons(FieldText(f), []);
      assert [FieldText(f)] + [] == [FieldText(f)];
      NoLinesNoData([]);
      assert lines[1..] == [] && Values([]) == [];
    } else {
      ContentIsRead(lines[1..]);
      var rest := Content(lines[1..]);
      LineAndEnd(FieldText(f), lines[0].end, rest);
      DataOfCons(FieldText(f), BlockLines(rest));
    }
  }

  lemma DataOfCons(line: string, rest: seq<string>)
    ensures DataOf([line] + rest) == (if LineData(line).Some? then [LineData(line).value] else []) + DataOf(rest)
  {
    assert ([line] + rest)[1..] == rest;
  }

  // ----- The separator after a block -----

  /** Text that does not start with a line end. */
  predicate StartsLine(t: string) {
    t != "" && t[0] != '\n' && (t[0] == '\r' ==> |t| > 1 && t[1] != '\n')
  }

  lemma {:induction false} ContentStartsLine(lines: seq<Line>, more: string)
    requires lines != [] && forall l | l in lines :: LegalField(l.field)
    ensures StartsLine(Content(lines) + more)
  {
    FieldIsOneLine(lines[0].field);
    var first := FieldText(lines[0].field);
    var rest := Content(lines)[|first|..] + more;
    assert Content(lines) + more == first + rest;
  }

  lemma ShiftedSeparator(front: string, t: string, k: nat)
    requires k <= |t|
    ensures SeparatorLength(front + t, |front| + k) == SeparatorLength(t, k)
  {
  }

  /** No separator starts inside a line or at its end when another line follows. */
  lemma NoSeparatorInLine(line: string, e: End, rest: string, k: nat)
    requires OneLine(line) && line != "" && StartsLine(rest) && k < |line + EndText(e)|
    ensures SeparatorLength(line + EndText(e) + rest, k) == 0
  {
    var n, text := |line|, line + EndText(e) + rest;
    assert text[n..] == EndText(e) + rest;
    if k < n {
      NoSeparatorInside(line, EndText(e) + rest, k);
      assert text == line + (EndText(e) + rest);
    } else {
      ShiftedSeparator(line, EndText(e) + rest, k - n);
      assert text == line + (EndText(e) + rest);
      EndBeforeLine(e, rest, k - n);
    }
  }

  lemma NoSeparatorInside(line: string, more: string, k: nat)
    requires OneLine(line) && k < |line|
    ensures SeparatorLength(line + more, k) == 0
  {
    assert (line + more)[k] == line[k];
    assert k + 1 < |line| ==> (line + more)[k + 1] == line[k + 1];
  }

  lemma EndBeforeLine(e: End, rest: string, k: nat)
    requires StartsLine(rest) && k < |EndText(e)|
    ensures SeparatorLength(EndText(e) + rest, k) == 0
  {
    var text := EndText(e) + rest;
    assert text[|EndText(e)|] == rest[0];
    assert |rest| > 1 ==> text[|EndText(e)| + 1] == rest[1];
  }

  lemma {:induction false} NoSeparatorInContent(lines: seq<Line>, more: string, k: nat)
    requires lines != [] && (forall l | l in lines :: LegalField(l.field)) && k < |Content(lines)|
    ensures SeparatorLength(Content(lines) + more, k) == 0
    decreases |lines|
  {
    hide SeparatorLength, LegalField, FieldText;
    var first := FieldText(lines[0].field);
    FieldIsOneLine(lines[0].field);
    if |lines| == 1 {
      NoSeparatorInside(first, more, k);
    } else {
      var end, rest := lines[0].end, Content(lines[1..]);
      ContentStartsLine(lines[1..], more);
      assert Content(lines) + more == first + EndText(end) + (rest + more);
      if k < |first + EndText(end)| {
        NoSeparatorInLine(first, end, rest + more, k);
      } else {
        var n := |first + EndText(end)|;
        NoSeparatorInContent(lines[1..], more, k - n);
        ShiftedSeparator(first + EndText(end), rest + more, k - n);
      }
    }
  }

  lemma TwoEndsSeparate(a: End, b: End, more: string)
    ensures SeparatorLength(EndText(a) + EndText(b) + more, 0) == |EndText(a)| + |EndText(b)|
  {
  }

  /** The first separator of a block's text is the end of its last line with the blank line. */
  lemma BlockEndsAtSeparator(b: Block, more: string)
    requires LegalBlock(b)
    ensures var whole, content := BlockText(b) + more, Content(b.lines);
      && FirstSeparator(whole, 0) == Some(|content|) && whole[..|content|] == content
      && SeparatorLength(whole, |content|) > 0 && Beyond(whole, |content|) == more
  {
    hide SeparatorLength, Content, FirstSeparator;
    var content, last := Content(b.lines), b.lines[|b.lines| - 1].end;
    var tail := EndText(last) + EndText(b.blank) + more;
    var whole := BlockText(b) + more;
    assert whole == content + tail;
    TwoEndsSeparate(last, b.blank, more);
    ShiftedSeparator(content, tail, 0);
    forall k | 0 <= k < |content|
      ensures SeparatorLength(whole, k) == 0
    {
      NoSeparatorInContent(b.lines, tail, k);
    }
    FirstIsFirst(whole, 0, |content|);
    assert whole[|content| + |EndText(last)| + |EndText(b.blank)|..] == more;
  }

  // ----- The limit -----

  lemma {:induction false} ShortTextIsDrained(text: string)
    requires |text| <= 262144
    ensures Drain(text).ok && |Drain(text).rest| <= |text|
    decreases |text|
  {
    hide SeparatorLength, FirstSeparator, Drain, Delivered, Beyond;
    DrainStep(text);
    var at := FirstSeparator(text, 0);
    if at.Some? {
      ShortTextIsDrained(Beyond(text, at.value));
    }
  }

  /** A block or an unfinished text beyond the limit is refused with nothing delivered of it. */
  lemma OverlongTextIsRefused(text: string)
    requires |text| > 262144 && forall k | 0 <= k <= 262144 :: SeparatorLength(text, k) == 0
    ensures Drain(text) == Outcome([], text, false)
  {
    hide SeparatorLength, FirstSeparator, Drain, Delivered, Beyond;
    DrainStep(text);
  }

  /** A stream of at most 262144 characters never meets the limit. */
  lemma {:induction false} ShortStreamIsNeverRefused(buffer: string, chunks: seq<string>)
    requires |buffer| + |Text(chunks)| <= 262144
    ensures FeedAll(buffer, chunks).ok
    decreases |chunks|
  {
    hide Drain;
    if chunks != [] {
      ShortTextIsDrained(buffer + chunks[0]);
      ShortStreamIsNeverRefused(Drain(buffer + chunks[0]).rest, chunks[1..]);
    }
  }

  // ----- What is delivered -----

  lemma {:induction false} StreamIsRead(bs: seq<Block>)
    requires forall b | b in bs :: LegalBlock(b)
    ensures Read(StreamText(bs)) == Outcome(Messages(bs), "", true)
  {
    hide Read, SeparatorLength, FirstSeparator, BlockText, LegalBlock, Content, Beyond, Values;
    if bs == [] {
      NothingToRead();
    } else {
      var more := StreamText(bs[1..]);
      BlockEndsAtSeparator(bs[0], more);
      BlockIsDelivered(bs[0]);
      ReadStep(StreamText(bs));
      StreamIsRead(bs[1..]);
    }
  }

  lemma NothingToRead()
    ensures Read("") == Outcome([], "", true)
  {
  }

  lemma BlockIsDelivered(b: Block)
    requires LegalBlock(b)
    ensures b.lines != []
    ensures Delivered(Content(b.lines)) == if Values(b.lines) == [] then [] else [Join(Values(b.lines))]
  {
    hide Content, Values, BlockLines, DataOf, Join;
    ContentIsRead(b.lines);
  }

  /**
   However a stream of blocks is cut into chunks, the reader delivers for each block with a data field
   the values of its data fields joined by newlines, in order, and nothing else.
   */
  lemma BlocksArrive(bs: seq<Block>, chunks: seq<string>)
    requires (forall b | b in bs :: LegalBlock(b)) && Text(chunks) == StreamText(bs) && FeedAll("", chunks).ok
    ensures FeedAll("", chunks) == Outcome(Messages(bs), "", true)
  {
    hide Read, FeedAll, StreamText, Messages, LegalBlock;
    NothingToRead();
    FeedingReads("", chunks);
    assert "" + Text(chunks) == Text(chunks);
    StreamIsRead(bs);
  }
}
