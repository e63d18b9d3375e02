/** What the response parser does with text that is cut short, cannot be read, or is malformed. */
module HttpLimits {
  import opened HttpResponses
  import opened Bits
  import opened ModularArithmetic
  import opened Wrappers

  // ---------------------------------------------------------------- text that is cut short

  /** A stretch of text that completes no response leaves the parser inside one, or untouched. */
  lemma {:induction false} SilentRun(framing: string -> Framing, p: Parser, b: string)
    ensures var r := Run(framing, p, b);
      r.ok && r.responses == [] && !r.parser.headerParsed ==> r.parser == p && r.rest == b
    decreases |b|, Rank(p)
  {
    StepAdvances(framing, p, b);
    match StepOf(framing, p, b)
    case Wait =>
    case Error(_, _) =>
    case Progress(next, n, done) =>
      if done == [] { SilentInside(framing, next, b[n..]); }
  }

  lemma {:induction false} SilentInside(framing: string -> Framing, p: Parser, b: string)
    requires p.headerParsed
    ensures var r := Run(framing, p, b); r.ok && r.responses == [] ==> r.parser.headerParsed
    decreases |b|, Rank(p)
  {
    StepAdvances(framing, p, b);
    match StepOf(framing, p, b)
    case Wait =>
    case Error(_, _) =>
    case Progress(next, n, done) =>
      if done == [] { SilentInside(framing, next, b[n..]); }
  }

  lemma WholeMessage(framing: string -> Framing, m: Message)
    requires MessageOk(framing, m)
    ensures Run(framing, START, MessageText(m)) == Outcome([Response(Join(m.header), Payload(m.body))], START, "", true)
  {
    MessageDecodes(framing, m, "");
    assert MessageText(m) + "" == MessageText(m);
    assert StepOf(framing, START, "") == Wait;
  }

  /** A message that is cut short gives no response yet, and no error. */
  lemma CutShort(framing: string -> Framing, m: Message, n: nat)
    requires MessageOk(framing, m) && n < |MessageText(m)|
    ensures var r := Run(framing, START, MessageText(m)[..n]); r.ok && r.responses == []
  {
    var w, c := MessageText(m)[..n], MessageText(m)[n..];
    assert w + c == MessageText(m);
    WholeMessage(framing, m);
    SplitRun(framing, START, w, c);
    var first := Run(framing, START, w);
    if first.ok && first.responses != [] {
      var later := Run(framing, first.parser, first.rest + c);
      assert later.responses == [] && later.parser == START && later.rest == "";
      SilentRun(framing, first.parser, first.rest + c);
    }
  }

  lemma StreamSplits(messages: seq<Message>, rest: string)
    requires messages != []
    ensures StreamText(messages) + rest == MessageText(messages[0]) + (StreamText(messages[1..]) + rest)
  {
    Regroup(MessageText(messages[0]), StreamText(messages[1..]), rest);
  }

  lemma {:induction false} StreamThen(framing: string -> Framing, messages: seq<Message>, rest: string)
    requires forall i :: 0 <= i < |messages| ==> MessageOk(framing, messages[i])
    ensures Run(framing, START, StreamText(messages) + rest) == Prepend(Responses(messages), Run(framing, START, rest))
  {
    var r := Run(framing, START, rest);
    if messages == [] {
      assert StreamText(messages) + rest == rest;
      PrependNone(r);
    } else {
      var m, more := messages[0], messages[1..];
      var first := [Response(Join(m.header), Payload(m.body))];
      var later := StreamText(more) + rest;
      StreamThen(framing, more, rest);
      MessageDecodes(framing, m, later);
      StreamSplits(messages, rest);
      FirstResponse(messages);
      PrependTwice(first, Responses(more), r);
      assert Run(framing, START, MessageText(m) + later) == Prepend(first, Prepend(Responses(more), r));
    }
  }

  /** Of a pipelined stream that is cut short, exactly the responses come out whose messages are complete. */
  lemma PrefixDecodes(framing: string -> Framing, messages: seq<Message>, m: Message, n: nat)
    requires forall i :: 0 <= i < |messages| ==> MessageOk(framing, messages[i])
    requires MessageOk(framing, m) && n < |MessageText(m)|
    ensures var r := Run(framing, START, StreamText(messages) + MessageText(m)[..n]);
      r.ok && r.responses == Responses(messages)
  {
    StreamThen(framing, messages, MessageText(m)[..n]);
    CutShort(framing, m, n);
  }

  // ---------------------------------------------------------------- text that cannot be read

  /** Behind a header block that cannot be read everything stays in the buffer, and more text does not help. */
  lemma UnreadableHeaderBlocks(framing: string -> Framing, header: seq<string>, rest: string)
    requires header != [] && LinesOk(header) && framing(Join(header)).BadHeader?
    ensures var b := Join(header) + BLANK_LINE + rest; Run(framing, START, b) == Outcome([], START, b, true)
  {
    HeaderStepIs(framing, header, rest);
  }

  // ---------------------------------------------------------------- malformed chunks

  lemma {:induction false} ParseHexFails(s: string)
    ensures ParseHexSize(s).None? <==> exists i :: 0 <= i < |s| && HexDigit(s[i]).None?
  {
    if s != [] {
      var before := s[..|s| - 1];
      ParseHexFails(before);
      if ParseHexSize(before).None? {
        var i :| 0 <= i < |before| && HexDigit(before[i]).None?;
        assert s[i] == before[i];
      }
      if exists i :: 0 <= i < |s| && HexDigit(s[i]).None? {
        var i :| 0 <= i < |s| && HexDigit(s[i]).None?;
        assert i < |before| ==> before[i] == s[i];
      }
    }
  }

  /** A size line is malformed exactly when, without extension and blanks, it is empty or holds a character that is no hexadecimal digit. */
  lemma MalformedSizeLine(line: string)
    ensures var digits := Trim(CutExtension(line));
      ChunkSize(line).None? <==> digits == [] || exists i :: 0 <= i < |digits| && HexDigit(digits[i]).None?
  {
    ParseHexFails(Trim(CutExtension(line)));
  }

  /** The hexadecimal digits are 0 to 9 and a to f in either case. */
  lemma HexDigits(c: char)
    ensures HexDigit(c).None? <==> c !in "0123456789abcdefABCDEF"
  {
  }

  lemma DigitIs(v: nat)
    requires v < 16
    ensures HexDigit("0123456789abcdef"[v]) == Some(v) && HexDigit("0123456789ABCDEF"[v]) == Some(v)
  {
  }

  /** Hexadecimal digits that do not fit 64 bits are read modulo 2^64. */
  lemma {:induction false} ReadsHexModulo(s: string)
    requires AllHex(s)
    ensures ParseHexSize(s) == Some(HexValue(s) % WORD_LIMIT)
  {
    if s != [] {
      ReadsHexModulo(s[..|s| - 1]);
      ShiftModulo(HexValue(s[..|s| - 1]), HexDigit(s[|s| - 1]).value);
    }
  }

  lemma RemainderIs(x: nat, n: nat, q: nat, r: nat)
    requires r < n && x == n * q + r
    ensures x % n == r
  {
    DivModUnique(n, x / n, x % n, q, r);
  }

  lemma ShiftModulo(v: nat, d: nat)
    requires d < 16
    ensures ShiftLeft4(v % WORD_LIMIT) + d == (v * 16 + d) % WORD_LIMIT
  {
    var low := v % WORD_LIMIT;
    var k, q, r := v / WORD_LIMIT, low / SHIFT_LIMIT, low % SHIFT_LIMIT;
    assert v == WORD_LIMIT * k + low && low == SHIFT_LIMIT * q + r;
    RemainderIs(v * 16 + d, WORD_LIMIT, 16 * k + q, r * 16 + d);
  }

  lemma ReadsExample(l: SizeLine, size: nat, line: string)
    requires AllBlank(l.left) && AllBlank(l.right) && NoLineBreak(l.extension) && (l.extension == [] || l.extension[0] == ';')
    requires (l.digits == "1e8" && size == 488) || (l.digits == "0A" && size == 10)
    requires line == LineText(l)
    ensures ChunkSize(line) == Some(size)
  {
    HexExample(l.digits, size);
    ReadsSizeLine(l, size);
  }

  /** Size lines: blanks are spaces and tabs, and a semicolon starts the extension. */
  lemma ExtensionIsCut()
    ensures ChunkSize("1e8;name=value") == Some(488)
  {
    ReadsExample(SizeLine("", "1e8", "", ";name=value"), 488, "1e8;name=value");
  }

  lemma BlanksAreTrimmed()
    ensures ChunkSize("\t 0A \t") == Some(10)
  {
    ReadsExample(SizeLine("\t ", "0A", " \t", ""), 10, "\t 0A \t");
  }

  lemma MalformedExamples()
    ensures ChunkSize(" ;x") == None && ChunkSize("5 5") == None && ChunkSize("0x5") == None
  {
    assert " ;x"[0..1][0] == ' ' && " ;x"[1..2] == ";";
    FindIs(" ;x", ";", 1);
    assert CutExtension(" ;x") == " " && Trim(" ") == "";
    Malformed("5 5", 1);
    Malformed("0x5", 1);
  }

  lemma HexExample(s: string, size: nat)
    requires (s == "1e8" && size == 488) || (s == "0A" && size == 10)
    ensures AllHex(s) && HexValue(s) == size
  {
    if s == "1e8" {
      assert s[..2] == "1e" && "1e"[..1] == "1" && "1"[..0] == "";
      assert HexValue("1") == 1 && HexValue("1e") == 30;
    } else {
      assert s[..1] == "0" && "0"[..0] == "";
      assert HexValue("0") == 0;
    }
  }

  lemma Malformed(line: string, i: nat)
    requires i < |line| && HexDigit(line[i]).None? && !IsBlank(line[0]) && !IsBlank(line[|line| - 1])
    requires forall j :: 0 <= j < |line| ==> line[j] != ';'
    ensures ChunkSize(line).None?
  {
    forall j | 0 <= j
      ensures !MatchesAt(line, ";", j)
    {
      if j < |line| { assert line[j..j + 1][0] == line[j]; }
    }
    FindNone(line, ";");
    assert Trim(CutExtension(line)) == line;
    MalformedSizeLine(line);
  }

  /** A malformed size line ends the parse behind its line break; nothing else changes. */
  lemma SizeLineRefused(framing: string -> Framing, p: Parser, line: string, rest: string)
    requires AtSizeLine(p) && NoLineBreak(line) && ChunkSize(line).None?
    ensures Run(framing, p, line + CRLF + rest) == Outcome([], p, rest, false)
  {
    LineEnd(line, rest);
    var b := line + CRLF + rest;
    assert b[..|line|] == line && b[|line| + 2..] == rest;
  }

  /** Data that no line break follows ends the parse for good: nothing is consumed, and no later text changes that. */
  lemma DataEndRefused(framing: string -> Framing, p: Parser, b: string)
    requires p.headerParsed && p.chunked && p.chunkState.ReadDataCRLF? && |b| >= 2 && b[..2] != CRLF
    ensures Run(framing, p, b) == Outcome([], p, b, false)
    ensures forall more: string :: Run(framing, p, b + more) == Outcome([], p, b + more, false)
  {
    forall more: string
      ensures Run(framing, p, b + more) == Outcome([], p, b + more, false)
    {
      assert (b + more)[..2] == b[..2];
      assert (b + more)[0..] == b + more;
    }
    assert b[0..] == b;
  }
}
