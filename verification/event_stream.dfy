/**
 The browser's event stream reader: text arrives in chunks cut anywhere, is split at blank lines into
 blocks, and each block is parsed into at most one message.
 */
module EventStream {
  import opened Results

  const MAX_BUFFER := 256 * 1024

  // ----- Separators -----

  /** The length of a separator starting at i: two line ends, each with or without a carriage return; 0 if none does. */
  function SeparatorLength(text: string, i: nat): (n: nat)
    ensures n > 0 ==> i + n <= |text|
  {
    var a := if i < |text| && text[i] == '\r' then i + 1 else i;
    if a >= |text| || text[a] != '\n' then 0 else
      var b := if a + 1 < |text| && text[a + 1] == '\r' then a + 2 else a + 1;
      if b >= |text| || text[b] != '\n' then 0 else b + 1 - i
  }

  /** Where the first separator at or after from starts. */
  function FirstSeparator(text: string, from: nat): (at: Option<nat>)
    requires from <= |text|
    ensures at.Some? ==> from <= at.value < |text| && SeparatorLength(text, at.value) > 0
    decreases |text| - from
  {
    if from == |text| then None
    else if SeparatorLength(text, from) > 0 then Some(from)
    else FirstSeparator(text, from + 1)
  }

  /** The text after the separator at i. */
  function Beyond(text: string, i: nat): (rest: string)
    requires SeparatorLength(text, i) > 0
    ensures |rest| < |text|
  {
    text[i + SeparatorLength(text, i)..]
  }

  lemma {:induction false} FirstIsFirst(text: string, from: nat, i: nat)
    requires from <= i < |text| && SeparatorLength(text, i) > 0
    requires forall k | from <= k < i :: SeparatorLength(text, k) == 0
    ensures FirstSeparator(text, from) == Some(i)
    decreases |text| - from
  {
    if from < i {
      FirstIsFirst(text, from + 1, i);
    }
  }

  lemma {:induction false} NothingBeforeFirst(text: string, from: nat, k: nat)
    requires from <= k < |text| && (FirstSeparator(text, from).Some? ==> k < FirstSeparator(text, from).value)
    ensures SeparatorLength(text, k) == 0
    decreases |text| - from
  {
    if from < k {
      NothingBeforeFirst(text, from + 1, k);
    }
  }

  lemma SeparatorStays(text: string, more: string, i: nat)
    requires SeparatorLength(text, i) > 0
    ensures SeparatorLength(text + more, i) == SeparatorLength(text, i)
  {
  }

  /** A separator completed by later text does not start before one that is already complete. */
  lemma NoEarlierSeparator(text: string, more: string, i: nat, k: nat)
    requires SeparatorLength(text, i) > 0 && k < i && SeparatorLength(text, k) == 0
    ensures SeparatorLength(text + more, k) == 0
  {
  }

  lemma FirstSeparatorStays(text: string, more: string)
    requires FirstSeparator(text, 0).Some?
    ensures FirstSeparator(text + more, 0) == FirstSeparator(text, 0)
    ensures var i := FirstSeparator(text, 0).value; SeparatorLength(text + more, i) == SeparatorLength(text, i)
  {
    var i := FirstSeparator(text, 0).value;
    SeparatorStays(text, more, i);
    forall k | 0 <= k < i ensures SeparatorLength(text + more, k) == 0 {
      NothingBeforeFirst(text, 0, k);
      NoEarlierSeparator(text, more, i, k);
    }
    FirstIsFirst(text + more, 0, i);
  }

  // ----- One block -----

  function WithoutReturn(line: string): string {
    if line != "" && line[|line| - 1] == '\r' then line[..|line| - 1] else line
  }

  function FirstNewline(text: string): (i: nat)
    ensures i <= |text| && (i < |text| ==> text[i] == '\n') && forall k | 0 <= k < i :: text[k] != '\n'
  {
    if text == "" || text[0] == '\n' then 0 else 1 + FirstNewline(text[1..])
  }

  /** The lines of a block, ended by a newline with or without a carriage return before it. */
  function BlockLines(block: string): seq<string>
    decreases |block|
  {
    var i := FirstNewline(block);
    if i == |block| then [block] else [WithoutReturn(block[..i])] + BlockLines(block[i + 1..])
  }

  /** What a line contributes: nothing unless it is a data field. */
  function LineData(line: string): Option<string> {
    if line == "" || line[0] == ':' then None
    else if line == "data" then Some("")
    else if "data:" <= line then
      var value := line[5..];
      Some(if value != "" && value[0] == ' ' then value[1..] else value)
    else None
  }

  function DataOf(lines: seq<string>): seq<string> {
    if lines == [] then [] else
      (if LineData(lines[0]).Some? then [LineData(lines[0]).value] else []) + DataOf(lines[1..])
  }

  function Join(lines: seq<string>): string {
    if lines == [] then "" else if |lines| == 1 then lines[0] else lines[0] + "\n" + Join(lines[1..])
  }

  /** The message of a block, if it has a data field. */
  function MessageOf(block: string): Option<string> {
    var data := DataOf(BlockLines(block));
    if data == [] then None else Some(Join(data))
  }

  lemma DataStep(lines: seq<string>, i: nat)
    requires i < |lines|
    ensures DataOf(lines[i..]) ==
      (if LineData(lines[i]).Some? then [LineData(lines[i]).value] else []) + DataOf(lines[i + 1..])
  {
    assert lines[i..][1..] == lines[i + 1..];
  }

  lemma NoLinesNoData(lines: seq<string>)
    requires |lines| == 0
    ensures DataOf(lines) == []
  {
  }

  method ParseBlock(block: string) returns (message: Option<string>)
    ensures message == MessageOf(block)
  {
    hide DataOf, BlockLines, Join;
    var lines := BlockLines(block);
    var data := [];
    assert lines[0..] == lines;
    for i := 0 to |lines|
      invariant DataOf(lines) == data + DataOf(lines[i..])
    {
      var line := lines[i];
      DataStep(lines, i);
      if line == "" || line[0] == ':' {
        continue;
      }
      if line == "data" {
        data := data + [""];
      } else if "data:" <= line {
        var value := line[5..];
        data := data + [if value != "" && value[0] == ' ' then value[1..] else value];
      }
    }
    NoLinesNoData(lines[|lines|..]);
    assert data + [] == data;
    return if data != [] then Some(Join(data)) else None;
  }

  function Delivered(block: string): seq<string> {
    if MessageOf(block).Some? then [MessageOf(block).value] else []
  }

  // ----- The reader -----

  /** What draining a buffer leaves: the messages delivered, the text kept, and whether no limit was exceeded. */
  datatype Outcome = Outcome(messages: seq<string>, rest: string, ok: bool) {
    /** The same, with these messages delivered before. */
    function After(earlier: seq<string>): Outcome {
      Outcome(earlier + messages, rest, ok)
    }
  }

  function Drain(text: string): Outcome
    decreases |text|
  {
    var at := FirstSeparator(text, 0);
    if at.None? then Outcome([], text, |text| <= MAX_BUFFER)
    else if at.value > MAX_BUFFER then Outcome([], text, false)
    else Drain(Beyond(text, at.value)).After(Delivered(text[..at.value]))
  }

  lemma DrainStep(text: string)
    ensures var at := FirstSeparator(text, 0);
      if at.None? then Drain(text) == Outcome([], text, |text| <= MAX_BUFFER)
      else if at.value > MAX_BUFFER then Drain(text) == Outcome([], text, false)
      else Drain(text) == Drain(Beyond(text, at.value)).After(Delivered(text[..at.value]))
  {
    hide SeparatorLength, FirstSeparator, Delivered, Beyond;
  }

  class EventStreamReader {
    var buffer: string
    var delivered: seq<string>

    constructor ()
      ensures buffer == "" && delivered == []
    {
      buffer := "";
      delivered := [];
    }

    /** Takes the block before the separator out of the buffer and delivers its message, if it has one. */
    method TakeBlock(at: nat)
      requires at < |buffer| && SeparatorLength(buffer, at) > 0
      modifies this
      ensures buffer == Beyond(old(buffer), at) && delivered == old(delivered) + Delivered(old(buffer)[..at])
    {
      hide SeparatorLength, MessageOf, Beyond;
      var block := buffer[..at];
      buffer := Beyond(buffer, at);
      var message := ParseBlock(block);
      if message.Some? {
        delivered := delivered + [message.value];
      }
    }

    /** Takes one chunk, delivers every block it completes, and stops at a block or buffer that is too long. */
    method Feed(chunk: string) returns (result: Result<(), string>)
      modifies this
      ensures var outcome := Drain(old(buffer) + chunk);
        && delivered == old(delivered) + outcome.messages
        && buffer == outcome.rest
        && (result.Ok? <==> outcome.ok)
    {
      hide Drain, SeparatorLength, FirstSeparator, Beyond, Delivered;
      buffer := buffer + chunk;
      ghost var whole := Drain(buffer);
      ghost var sent: seq<string> := [];
      var separator := FirstSeparator(buffer, 0);
      while separator.Some?
        invariant separator == FirstSeparator(buffer, 0)
        invariant delivered == old(delivered) + sent
        invariant whole == Drain(buffer).After(sent)
        decreases |buffer|
      {
        DrainStep(buffer);
        if separator.value > MAX_BUFFER {
          return Err("SSE event exceeds the safety limit");
        }
        sent := sent + Delivered(buffer[..separator.value]);
        TakeBlock(separator.value);
        separator := FirstSeparator(buffer, 0);
      }
      DrainStep(buffer);
      if |buffer| > MAX_BUFFER {
        return Err("SSE event exceeds the safety limit");
      }
      return Ok(());
    }
  }

  // ----- Chunks -----

  function Text(chunks: seq<string>): string {
    if chunks == [] then "" else chunks[0] + Text(chunks[1..])
  }

  /** Feeding chunks one by one to a reader holding this buffer, until a limit is exceeded. */
  function FeedAll(buffer: string, chunks: seq<string>): Outcome
    decreases |chunks|
  {
    if chunks == [] then Outcome([], buffer, true) else
      var first := Drain(buffer + chunks[0]);
      if !first.ok then first else
        FeedAll(first.rest, chunks[1..]).After(first.messages)
  }

  /** The messages and the unfinished rest of a text read in one piece without limits. */
  function Read(text: string): Outcome
    decreases |text|
  {
    var at := FirstSeparator(text, 0);
    if at.None? then Outcome([], text, true)
    else Read(Beyond(text, at.value)).After(Delivered(text[..at.value]))
  }

  lemma {:induction false} DrainReads(text: string)
    ensures Drain(text).messages <= Read(text).messages
    ensures Drain(text).ok ==> Drain(text) == Read(text)
    decreases |text|
  {
    hide Drain, Read, SeparatorLength, FirstSeparator, Delivered;
    DrainStep(text);
    var at := FirstSeparator(text, 0);
    if at.None? {
      ReadUnfinished(text);
    } else {
      ReadStep(text);
      if at.value <= MAX_BUFFER {
        var rest := Beyond(text, at.value);
        DrainReads(rest);
        PrefixAfter(Delivered(text[..at.value]), Drain(rest).messages, Read(rest).messages);
      }
    }
  }

  lemma ReadStep(text: string)
    requires FirstSeparator(text, 0).Some?
    ensures var i := FirstSeparator(text, 0).value;
      Read(text) == Read(Beyond(text, i)).After(Delivered(text[..i]))
  {
    hide SeparatorLength, FirstSeparator, Delivered, Beyond;
  }

  lemma ReadUnfinished(text: string)
    requires FirstSeparator(text, 0).None?
    ensures Read(text) == Outcome([], text, true)
  {
  }

  /** Reading a text is reading its first part and then the rest of that with what follows. */
  lemma {:induction false} ReadInTwo(text: string, more: string)
    ensures var first := Read(text); var second := Read(first.rest + more);
      Read(text + more) == second.After(first.messages)
    decreases |text|
  {
    hide Read, SeparatorLength, FirstSeparator, Delivered;
    var at := FirstSeparator(text, 0);
    if at.None? {
      ReadUnfinished(text);
    } else {
      var i := at.value;
      FirstSeparatorStays(text, more);
      assert (text + more)[..i] == text[..i];
      assert Beyond(text + more, i) == Beyond(text, i) + more;
      ReadInTwo(Beyond(text, i), more);
      ReadStep(text);
      ReadStep(text + more);
    }
  }

  /**
   However a text is cut, what is delivered is a beginning of its messages, and all of them with the
   same rest when no limit is exceeded.
   */
  lemma {:induction false} FeedingReads(buffer: string, chunks: seq<string>)
    requires Read(buffer) == Outcome([], buffer, true)
    ensures FeedAll(buffer, chunks).messages <= Read(buffer + Text(chunks)).messages
    ensures FeedAll(buffer, chunks).ok ==> FeedAll(buffer, chunks) == Read(buffer + Text(chunks))
    decreases |chunks|
  {
    hide Drain, Read;
    if chunks == [] {
      assert buffer + Text(chunks) == buffer;
    } else {
      var head := buffer + chunks[0];
      var first := Drain(head);
      DrainReads(head);
      ReadInTwo(head, Text(chunks[1..]));
      assert buffer + Text(chunks) == head + Text(chunks[1..]);
      if first.ok {
        RestIsUnfinished(head);
        FeedingReads(first.rest, chunks[1..]);
        PrefixAfter(first.messages, FeedAll(first.rest, chunks[1..]).messages,
          Read(first.rest + Text(chunks[1..])).messages);
      }
    }
  }

  lemma PrefixAfter<T>(front: seq<T>, a: seq<T>, b: seq<T>)
    requires a <= b
    ensures front + a <= front + b
  {
  }

  lemma {:induction false} RestIsUnfinished(text: string)
    ensures var rest := Read(text).rest; Read(rest) == Outcome([], rest, true)
    decreases |text|
  {
    hide Read, SeparatorLength, FirstSeparator, Delivered, Beyond;
    var at := FirstSeparator(text, 0);
    if at.Some? {
      ReadStep(text);
      RestIsUnfinished(Beyond(text, at.value));
    } else {
      ReadUnfinished(text);
    }
  }

  /** Two cuttings of the same text give the same messages and leave the same rest, unless a limit is exceeded. */
  lemma CuttingDoesNotMatter(chunks: seq<string>, others: seq<string>)
    requires Text(chunks) == Text(others)
    requires FeedAll("", chunks).ok && FeedAll("", others).ok
    ensures FeedAll("", chunks) == FeedAll("", others)
  {
    FeedingReads("", chunks);
    FeedingReads("", others);
  }

  // ----- Round trip -----

  /** The lines of a message. */
  function Lines(message: string): (lines: seq<string>)
    ensures lines != [] && Join(lines) == message
    ensures forall l | l in lines :: '\n' !in l
    decreases |message|
  {
    var i := FirstNewline(message);
    if i == |message| then
      assert '\n' !in message;
      [message]
    else
      assert message == message[..i] + "\n" + message[i + 1..];
      assert '\n' !in message[..i];
      [message[..i]] + Lines(message[i + 1..])
  }

  function Prefixed(lines: seq<string>): seq<string> {
    if lines == [] then [] else ["data: " + lines[0]] + Prefixed(lines[1..])
  }

  /** A message as the server writes it: a data field for each line, and a blank line. */
  function Encode(message: string): string {
    Join(Prefixed(Lines(message))) + "\n\n"
  }

  function EncodeAll(messages: seq<string>): string {
    if messages == [] then "" else Encode(messages[0]) + EncodeAll(messages[1..])
  }

  function WithoutReturns(lines: seq<string>): seq<string> {
    if lines == [] then [] else [WithoutReturn(lines[0])] + WithoutReturns(lines[1..])
  }

  /** What arrives of a message: every line loses one carriage return at its end. */
  function Received(message: string): string {
    Join(WithoutReturns(Lines(message)))
  }

  function ReceivedAll(messages: seq<string>): seq<string> {
    if messages == [] then [] else [Received(messages[0])] + ReceivedAll(messages[1..])
  }

  /** Every newline is followed by the start of another data field. */
  predicate Unbroken(text: string) {
    forall i | 0 <= i < |text| && text[i] == '\n' :: i + 1 < |text| && text[i + 1] == 'd'
  }

  lemma {:induction false} PrefixedIsUnbroken(lines: seq<string>)
    requires lines != [] && forall l | l in lines :: '\n' !in l
    ensures Unbroken(Join(Prefixed(lines)))
    ensures var text := Join(Prefixed(lines)); |text| >= 6 && text[0] == 'd'
  {
    assert lines[0] in lines;
    NoNewlineInPrefixed(lines[0]);
    if |lines| > 1 {
      PrefixedIsUnbroken(lines[1..]);
      JoinPrefixed(lines);
      UnbrokenAfterLine("data: " + lines[0], Join(Prefixed(lines[1..])));
    }
  }

  lemma UnbrokenAfterLine(first: string, rest: string)
    requires (forall i | 0 <= i < |first| :: first[i] != '\n') && Unbroken(rest) && rest != "" && rest[0] == 'd'
    ensures Unbroken(first + "\n" + rest)
  {
    var text := first + "\n" + rest;
    forall i | 0 <= i < |text| && text[i] == '\n' ensures i + 1 < |text| && text[i + 1] == 'd' {
      if i > |first| {
        assert text[i] == rest[i - |first| - 1];
      }
    }
  }

  lemma NoNewlineInPrefixed(line: string)
    requires '\n' !in line
    ensures forall i | 0 <= i < |"data: " + line| :: ("data: " + line)[i] != '\n'
    ensures WithoutReturn("data: " + line) == "data: " + WithoutReturn(line)
  {
  }

  lemma JoinPrefixed(lines: seq<string>)
    requires |lines| > 1
    ensures Join(Prefixed(lines)) == "data: " + lines[0] + "\n" + Join(Prefixed(lines[1..]))
  {
    assert Prefixed(lines)[1..] == Prefixed(lines[1..]);
  }

  /** The first separator of an encoded message is its blank line. */
  lemma BlankLineIsFirst(text: string, more: string)
    requires Unbroken(text) && text != ""
    ensures var whole := text + "\n\n" + more;
      && FirstSeparator(whole, 0) == Some(|WithoutReturn(text)|)
      && |WithoutReturn(text)| + SeparatorLength(whole, |WithoutReturn(text)|) == |text| + 2
      && whole[..|WithoutReturn(text)|] == WithoutReturn(text)
      && whole[|text| + 2..] == more
  {
    var whole := text + "\n\n" + more;
    assert whole[|text|] == '\n' && whole[|text| + 1] == '\n';
    assert SeparatorLength(whole, |WithoutReturn(text)|) == |text| + 2 - |WithoutReturn(text)|;
    forall k | 0 <= k < |WithoutReturn(text)| ensures SeparatorLength(whole, k) == 0 {
      assert whole[k] == text[k];
      assert k + 1 < |text| ==> whole[k + 1] == text[k + 1];
      assert k + 2 < |text| ==> whole[k + 2] == text[k + 2];
    }
    FirstIsFirst(whole, 0, |WithoutReturn(text)|);
  }

  lemma {:induction false} LinesOfEncoded(lines: seq<string>)
    requires lines != [] && forall l | l in lines :: '\n' !in l
    ensures BlockLines(WithoutReturn(Join(Prefixed(lines)))) == Prefixed(WithoutReturns(lines))
  {
    var first := "data: " + lines[0];
    assert lines[0] in lines;
    NoNewlineInPrefixed(lines[0]);
    if |lines| > 1 {
      var rest := Join(Prefixed(lines[1..]));
      PrefixedIsUnbroken(lines[1..]);
      JoinPrefixed(lines);
      LastReturnOnly(first + "\n", rest);
      LinesOfEncoded(lines[1..]);
      hide BlockLines, Join, Prefixed, WithoutReturn, WithoutReturns;
      FirstLine(first, WithoutReturn(rest));
      PrefixedWithoutReturns(lines);
    } else {
      NoNewline(WithoutReturn(first));
      assert lines == [lines[0]];
    }
  }

  lemma LastReturnOnly(front: string, rest: string)
    requires rest != ""
    ensures WithoutReturn(front + rest) == front + WithoutReturn(rest)
  {
  }

  lemma PrefixedWithoutReturns(lines: seq<string>)
    requires lines != []
    ensures Prefixed(WithoutReturns(lines)) ==
      ["data: " + WithoutReturn(lines[0])] + Prefixed(WithoutReturns(lines[1..]))
  {
    assert WithoutReturns(lines)[1..] == WithoutReturns(lines[1..]);
  }

  lemma FirstLine(first: string, rest: string)
    requires forall i | 0 <= i < |first| :: first[i] != '\n'
    ensures BlockLines(first + "\n" + rest) == [WithoutReturn(first)] + BlockLines(rest)
  {
    var text := first + "\n" + rest;
    assert text[|first|] == '\n' && forall k | 0 <= k < |first| :: text[k] == first[k];
    assert FirstNewline(text) == |first|;
    assert text[..|first|] == first && text[|first| + 1..] == rest;
  }

  lemma NoNewline(line: string)
    requires forall i | 0 <= i < |line| :: line[i] != '\n'
    ensures BlockLines(line) == [line]
  {
  }

  lemma {:induction false} DataOfPrefixed(lines: seq<string>)
    ensures DataOf(Prefixed(lines)) == lines
  {
    if lines != [] {
      var first := "data: " + lines[0];
      assert first[5..] == " " + lines[0];
      assert LineData(first) == Some(lines[0]);
      DataOfPrefixed(lines[1..]);
      assert Prefixed(lines)[1..] == Prefixed(lines[1..]);
    }
  }

  lemma {:induction false} ReadEncoded(messages: seq<string>)
    ensures Read(EncodeAll(messages)) == Outcome(ReceivedAll(messages), "", true)
  {
    if messages != [] {
      var lines := Lines(messages[0]);
      var text := Join(Prefixed(lines));
      var more := EncodeAll(messages[1..]);
      PrefixedIsUnbroken(lines);
      BlankLineIsFirst(text, more);
      LinesOfEncoded(lines);
      DataOfPrefixed(WithoutReturns(lines));
      assert EncodeAll(messages) == text + "\n\n" + more;
      assert Delivered(WithoutReturn(text)) == [Received(messages[0])];
      ReadEncoded(messages[1..]);
    }
  }

  /** No line of the message ends in a carriage return. */
  predicate Clean(message: string) {
    forall l | l in Lines(message) :: l == WithoutReturn(l)
  }

  lemma {:induction false} JoinShrinks(lines: seq<string>)
    ensures |Join(WithoutReturns(lines))| <= |Join(lines)|
    ensures |Join(WithoutReturns(lines))| == |Join(lines)| <==> forall l | l in lines :: l == WithoutReturn(l)
    ensures (forall l | l in lines :: l == WithoutReturn(l)) ==> WithoutReturns(lines) == lines
  {
    if lines != [] {
      JoinShrinks(lines[1..]);
      assert lines == [lines[0]] + lines[1..];
      assert forall l :: l in lines <==> l == lines[0] || l in lines[1..];
    }
  }

  lemma ReceivedIffClean(message: string)
    ensures Received(message) == message <==> Clean(message)
  {
    JoinShrinks(Lines(message));
  }

  lemma {:induction false} ReceivedAllIffClean(messages: seq<string>)
    ensures ReceivedAll(messages) == messages <==> forall m | m in messages :: Clean(m)
  {
    hide Clean, Received;
    if messages != [] {
      ReceivedIffClean(messages[0]);
      ReceivedAllIffClean(messages[1..]);
      assert messages == [messages[0]] + messages[1..];
      assert forall m :: m in messages <==> m == messages[0] || m in messages[1..];
      assert ReceivedAll(messages)[1..] == ReceivedAll(messages[1..]);
    }
  }

  /**
   Messages written as data fields arrive in order, however their text is cut, with one carriage
   return less at the end of every line that had one; so they arrive unchanged exactly when no line
   ends in a carriage return.
   */
  lemma MessagesArrive(messages: seq<string>, chunks: seq<string>)
    requires Text(chunks) == EncodeAll(messages) && FeedAll("", chunks).ok
    ensures FeedAll("", chunks) == Outcome(ReceivedAll(messages), "", true)
    ensures FeedAll("", chunks).messages == messages <==> forall m | m in messages :: Clean(m)
  {
    FeedingReads("", chunks);
    hide FeedAll, Read, ReceivedAll, EncodeAll, Clean, Text;
    assert Read("") == Outcome([], "", true) && "" + Text(chunks) == Text(chunks);
    ReadEncoded(messages);
    ReceivedAllIffClean(messages);
  }

  /** Messages without carriage returns arrive unchanged. */
  lemma ReturnFreeMessagesArrive(messages: seq<string>, chunks: seq<string>)
    requires Text(chunks) == EncodeAll(messages) && FeedAll("", chunks).ok
    requires forall m | m in messages :: '\r' !in m
    ensures FeedAll("", chunks).messages == messages
  {
    forall m | m in messages ensures Clean(m) {
      LinesKeepCharacters(m);
    }
    MessagesArrive(messages, chunks);
  }

  lemma {:induction false} LinesKeepCharacters(message: string)
    requires '\r' !in message
    ensures forall l | l in Lines(message) :: '\r' !in l
    decreases |message|
  {
    var i := FirstNewline(message);
    if i < |message| {
      LinesKeepCharacters(message[i + 1..]);
    }
  }
}
