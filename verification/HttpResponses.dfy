/**
  The incremental HTTP/1.1 response parser with its chunked-body parser (RFC 7230, section 4.1).
  What the header fields say about the body is a parameter: a function from header blocks to framings.
 */
module HttpResponses {
  import opened Bits
  import opened Wrappers

  const CRLF := "\r\n"
  const BLANK_LINE := "\r\n\r\n"

  /** What a header block says: it cannot be read, the body is chunked, or it has a length. */
  datatype Framing = BadHeader | Chunked | Length(count: nat)

  datatype Response = Response(header: string, body: string)

  datatype ChunkState = ReadSizeLine | ReadData | ReadDataCRLF | ReadTrailers | Done

  /** Everything the parser remembers between calls, apart from its buffer. */
  datatype Parser = Parser(
    headerParsed: bool,
    contentLength: nat,
    chunked: bool,
    chunkState: ChunkState,
    chunkRemaining: nat,
    header: string,
    body: string)

  const START := Parser(false, 0, false, ReadSizeLine, 0, "", "")

  // ---------------------------------------------------------------- searching and reading text

  predicate MatchesAt(s: string, pattern: string, i: nat) {
    i + |pattern| <= |s| && s[i..i + |pattern|] == pattern
  }

  /** `std::string::find` from position i. */
  function FindFrom(s: string, pattern: string, i: nat): (r: Option<nat>)
    ensures r.Some? ==> i <= r.value && MatchesAt(s, pattern, r.value)
    ensures r.Some? ==> forall j :: i <= j < r.value ==> !MatchesAt(s, pattern, j)
    ensures r.None? ==> forall j :: i <= j ==> !MatchesAt(s, pattern, j)
    decreases |s| - i
  {
    if i + |pattern| > |s| then None
    else if s[i..i + |pattern|] == pattern then Some(i)
    else FindFrom(s, pattern, i + 1)
  }

  function Find(s: string, pattern: string): (r: Option<nat>)
    ensures r.Some? ==> MatchesAt(s, pattern, r.value)
  {
    FindFrom(s, pattern, 0)
  }

  /** The first occurrence is the one `find` reports. */
  lemma FindIs(s: string, pattern: string, i: nat)
    requires MatchesAt(s, pattern, i) && forall j :: 0 <= j < i ==> !MatchesAt(s, pattern, j)
    ensures Find(s, pattern) == Some(i)
  {
  }

  lemma MatchMore(a: string, c: string, pattern: string, i: nat)
    requires i + |pattern| <= |a|
    ensures MatchesAt(a + c, pattern, i) <==> MatchesAt(a, pattern, i)
  {
    assert (a + c)[i..i + |pattern|] == a[i..i + |pattern|];
  }

  /** More text never changes an occurrence that was found. */
  lemma FindMore(a: string, c: string, pattern: string)
    requires Find(a, pattern).Some?
    ensures Find(a + c, pattern) == Find(a, pattern)
  {
    var i := Find(a, pattern).value;
    MatchMore(a, c, pattern, i);
    forall j | 0 <= j < i
      ensures !MatchesAt(a + c, pattern, j)
    {
      MatchMore(a, c, pattern, j);
    }
    FindIs(a + c, pattern, i);
  }

  predicate IsBlank(c: char) {
    c == ' ' || c == '\t'
  }

  function TrimLeft(s: string): string {
    if s != [] && IsBlank(s[0]) then TrimLeft(s[1..]) else s
  }

  function TrimRight(s: string): string {
    if s != [] && IsBlank(s[|s| - 1]) then TrimRight(s[..|s| - 1]) else s
  }

  function Trim(s: string): string {
    TrimRight(TrimLeft(s))
  }

  /** The size line without its chunk extension. */
  function CutExtension(line: string): string {
    match Find(line, ";")
    case None => line
    case Some(i) => line[..i]
  }

  function HexDigit(c: char): Option<nat> {
    if '0' <= c <= '9' then Some(c as nat - '0' as nat)
    else if 'a' <= c <= 'f' then Some(10 + (c as nat - 'a' as nat))
    else if 'A' <= c <= 'F' then Some(10 + (c as nat - 'A' as nat))
    else None
  }

  const SHIFT_LIMIT: nat := 0x1000_0000_0000_0000

  /** `v << 4` in 64 bits. */
  function ShiftLeft4(v: nat): nat {
    (v % SHIFT_LIMIT) * 16
  }

  function ParseHexSize(s: string): Option<nat> {
    if s == [] then Some(0)
    else
      match ParseHexSize(s[..|s| - 1])
      case None => None
      case Some(v) =>
        match HexDigit(s[|s| - 1])
        case None => None
        case Some(d) => Some(ShiftLeft4(v) + d)
  }

  /** The chunk size a size line gives, if it is one. */
  function ChunkSize(line: string): Option<nat> {
    var digits := Trim(CutExtension(line));
    if digits == [] then None else ParseHexSize(digits)
  }

  // ---------------------------------------------------------------- one step of the parser

  /** One state change: bytes consumed and responses completed, waiting for bytes, or a chunk error. */
  datatype Step = Progress(next: Parser, consumed: nat, done: seq<Response>) | Wait | Error(next: Parser, consumed: nat)

  function HeaderStep(framing: string -> Framing, p: Parser, b: string): Step {
    match Find(b, BLANK_LINE)
    case None => Wait
    case Some(pos) =>
      var header := b[..pos];
      match framing(header)
      case BadHeader => Wait
      case Chunked => Progress(p.(headerParsed := true, chunked := true, contentLength := 0, header := header), pos + 4, [])
      case Length(n) =>
        if n == 0 then Progress(START, pos + 4, [Response(header, "")])
        else Progress(p.(headerParsed := true, chunked := false, contentLength := n, header := header), pos + 4, [])
  }

  function ChunkStep(p: Parser, b: string): Step {
    match p.chunkState
    case ReadSizeLine =>
      (match Find(b, CRLF)
       case None => Wait
       case Some(rn) =>
         match ChunkSize(b[..rn])
         case None => Error(p, rn + 2)
         case Some(n) => Progress(p.(chunkRemaining := n, chunkState := if n == 0 then ReadTrailers else ReadData), rn + 2, []))
    case ReadData =>
      if |b| < p.chunkRemaining then Wait
      else Progress(p.(body := p.body + b[..p.chunkRemaining], chunkState := ReadDataCRLF), p.chunkRemaining, [])
    case ReadDataCRLF =>
      if |b| < 2 then Wait
      else if b[..2] != CRLF then Error(p, 0)
      else Progress(p.(chunkState := ReadSizeLine, chunkRemaining := 0), 2, [])
    case ReadTrailers =>
      if |b| < 2 then Wait
      else if b[..2] == CRLF then Progress(p.(chunkState := Done), 2, [])
      else
        (match Find(b, BLANK_LINE)
         case None => Wait
         case Some(end) => Progress(p.(chunkState := Done), end + 4, []))
    case Done => Progress(START, 0, [Response(p.header, p.body)])
  }

  function BodyStep(p: Parser, b: string): Step {
    if |b| < p.contentLength then Wait
    else Progress(START, p.contentLength, [Response(p.header, b[..p.contentLength])])
  }

  function StepOf(framing: string -> Framing, p: Parser, b: string): Step {
    if !p.headerParsed then HeaderStep(framing, p, b)
    else if p.chunked then ChunkStep(p, b)
    else BodyStep(p, b)
  }

  /** Steps that may consume nothing lead to steps that do not. */
  function Rank(p: Parser): nat {
    if !p.headerParsed then 0
    else if !p.chunked || p.chunkState.Done? then 1
    else if p.chunkState.ReadData? then 2
    else 1
  }

  lemma StepAdvances(framing: string -> Framing, p: Parser, b: string)
    ensures var s := StepOf(framing, p, b);
      && (s.Progress? ==> s.consumed <= |b| && (s.consumed > 0 || Rank(s.next) < Rank(p)))
      && (s.Error? ==> s.consumed <= |b|)
  {
  }

  /** The responses a stretch of text completes, the parser and text left, and whether no chunk error occurred. */
  datatype Outcome = Outcome(responses: seq<Response>, parser: Parser, rest: string, ok: bool)

  function Prepend(responses: seq<Response>, r: Outcome): Outcome {
    r.(responses := responses + r.responses)
  }

  function Run(framing: string -> Framing, p: Parser, b: string): Outcome
    decreases |b|, Rank(p)
  {
    StepAdvances(framing, p, b);
    match StepOf(framing, p, b)
    case Wait => Outcome([], p, b, true)
    case Error(next, n) => Outcome([], next, b[n..], false)
    case Progress(next, n, done) => Prepend(done, Run(framing, next, b[n..]))
  }

  // ---------------------------------------------------------------- any split gives the same responses

  /** Text that arrives later does not change a step that has been taken. */
  lemma StepMore(framing: string -> Framing, p: Parser, a: string, c: string)
    requires !StepOf(framing, p, a).Wait?
    ensures StepOf(framing, p, a + c) == StepOf(framing, p, a)
  {
    var b := a + c;
    if !p.headerParsed {
      FindMore(a, c, BLANK_LINE);
      assert b[..Find(a, BLANK_LINE).value] == a[..Find(a, BLANK_LINE).value];
    } else if p.chunked {
      ChunkStepMore(p, a, c);
    } else {
      assert b[..p.contentLength] == a[..p.contentLength];
    }
  }

  lemma ChunkStepMore(p: Parser, a: string, c: string)
    requires !ChunkStep(p, a).Wait?
    ensures ChunkStep(p, a + c) == ChunkStep(p, a)
  {
    var b := a + c;
    match p.chunkState {
      case ReadSizeLine =>
        FindMore(a, c, CRLF);
        assert b[..Find(a, CRLF).value] == a[..Find(a, CRLF).value];
      case ReadData =>
        assert b[..p.chunkRemaining] == a[..p.chunkRemaining];
      case ReadDataCRLF =>
        assert b[..2] == a[..2];
      case ReadTrailers =>
        assert b[..2] == a[..2];
        if a[..2] != CRLF { FindMore(a, c, BLANK_LINE); }
      case Done =>
    }
  }

  /** Parsing what has arrived and then the rest gives what parsing everything at once gives. */
  lemma {:induction false} SplitRun(framing: string -> Framing, p: Parser, a: string, c: string)
    ensures var first := Run(framing, p, a);
      Run(framing, p, a + c) ==
        if first.ok then Prepend(first.responses, Run(framing, first.parser, first.rest + c))
        else first.(rest := first.rest + c)
    decreases |a|, Rank(p)
  {
    StepAdvances(framing, p, a);
    match StepOf(framing, p, a)
    case Wait =>
      PrependNone(Run(framing, p, a + c));
    case Error(next, n) =>
      StepMore(framing, p, a, c);
      assert (a + c)[n..] == a[n..] + c;
    case Progress(next, n, done) =>
      StepMore(framing, p, a, c);
      assert (a + c)[n..] == a[n..] + c;
      SplitRun(framing, next, a[n..], c);
      var first := Run(framing, next, a[n..]);
      if first.ok {
        PrependTwice(done, first.responses, Run(framing, first.parser, first.rest + c));
      }
  }

  lemma PrependNone(r: Outcome)
    ensures Prepend([], r) == r
  {
    assert [] + r.responses == r.responses;
  }

  lemma PrependTwice(a: seq<Response>, b: seq<Response>, r: Outcome)
    ensures Prepend(a, Prepend(b, r)) == Prepend(a + b, r)
  {
    assert a + (b + r.responses) == (a + b) + r.responses;
  }

  /** Parsing what is left over again changes nothing. */
  lemma {:induction false} RunTwice(framing: string -> Framing, p: Parser, b: string)
    ensures var r := Run(framing, p, b);
      r.ok ==> Run(framing, r.parser, r.rest) == Outcome([], r.parser, r.rest, true)
    decreases |b|, Rank(p)
  {
    StepAdvances(framing, p, b);
    match StepOf(framing, p, b)
    case Wait =>
    case Error(_, _) =>
    case Progress(next, n, done) => RunTwice(framing, next, b[n..]);
  }

  /** The text of a run of reads; each read is followed by a parse of everything buffered. */
  function Received(parts: seq<string>): string {
    if parts == [] then "" else Received(parts[..|parts| - 1]) + parts[|parts| - 1]
  }

  /**
    What the parser object has returned and holds after the reads, and whether every chunk was well-formed.
    A malformed chunk ends a parse, and the next read goes on where it stopped.
   */
  function AfterReads(framing: string -> Framing, parts: seq<string>): Outcome {
    if parts == [] then Outcome([], START, "", true)
    else
      var before := AfterReads(framing, parts[..|parts| - 1]);
      var r := Run(framing, before.parser, before.rest + parts[|parts| - 1]);
      Outcome(before.responses + r.responses, r.parser, r.rest, before.ok && r.ok)
  }

  /** For every text in which no chunk is malformed, any split into reads yields the same responses and leftover. */
  lemma {:induction false} AnySplitYieldsTheSameResponses(framing: string -> Framing, parts: seq<string>)
    requires Run(framing, START, Received(parts)).ok
    ensures AfterReads(framing, parts) == Run(framing, START, Received(parts))
  {
    if parts == [] {
      assert StepOf(framing, START, "") == Wait;
    } else {
      var before, last := parts[..|parts| - 1], parts[|parts| - 1];
      SplitRun(framing, START, Received(before), last);
      AnySplitYieldsTheSameResponses(framing, before);
    }
  }

  /** On every text, malformed chunks or not, any split yields at least the responses of a single read. */
  lemma {:induction false} NoSplitLosesAResponse(framing: string -> Framing, parts: seq<string>)
    ensures Run(framing, START, Received(parts)).responses <= AfterReads(framing, parts).responses
  {
    if parts == [] {
      assert StepOf(framing, START, "") == Wait;
    } else {
      var before, last := parts[..|parts| - 1], parts[|parts| - 1];
      SplitRun(framing, START, Received(before), last);
      if Run(framing, START, Received(before)).ok {
        AnySplitYieldsTheSameResponses(framing, before);
      } else {
        NoSplitLosesAResponse(framing, before);
      }
    }
  }

  lemma OneRead(framing: string -> Framing, a: string)
    ensures Received([a]) == a
    ensures var r := Run(framing, START, a); AfterReads(framing, [a]) == Outcome(r.responses, r.parser, r.rest, r.ok)
  {
    assert [a][..0] == [] && Received([]) == "" && AfterReads(framing, []) == Outcome([], START, "", true);
    assert "" + a == a;
    assert [] + Run(framing, START, a).responses == Run(framing, START, a).responses;
  }

  lemma TwoReads(framing: string -> Framing, a: string, b: string)
    ensures Received([a, b]) == a + b
    ensures var first := Run(framing, START, a);
      AfterReads(framing, [a, b]).responses == first.responses + Run(framing, first.parser, first.rest + b).responses
  {
    OneRead(framing, a);
    assert [a, b][..1] == [a];
  }

  const BAD_CHUNK := "H\r\n\r\nx\r\n"
  const END_OF_BODY := "0\r\n\r\n"

  /** It may yield more: behind a malformed size line, only a later read finds the end of the body. */
  lemma MalformedChunkSplits(framing: string -> Framing)
    requires framing("H") == Chunked
    ensures Run(framing, START, BAD_CHUNK + END_OF_BODY).responses == []
    ensures Received([BAD_CHUNK, END_OF_BODY]) == BAD_CHUNK + END_OF_BODY
    ensures AfterReads(framing, [BAD_CHUNK, END_OF_BODY]).responses == [Response("H", "")]
  {
    var p := START.(headerParsed := true, chunked := true, header := "H");
    TwoReads(framing, BAD_CHUNK, END_OF_BODY);
    HeadRead(framing, p, BAD_CHUNK);
    SizeRefused(framing, p);
    SplitRun(framing, START, BAD_CHUNK, END_OF_BODY);
    BodyEnds(framing, p, END_OF_BODY);
    assert "" + END_OF_BODY == END_OF_BODY;
  }

  lemma HeadRead(framing: string -> Framing, p: Parser, a: string)
    requires framing("H") == Chunked && a == "H\r\n\r\nx\r\n" && p == START.(headerParsed := true, chunked := true, header := "H")
    ensures Run(framing, START, a) == Prepend([], Run(framing, p, "x\r\n"))
  {
    assert a[1..5] == BLANK_LINE && a[..1] == "H" && a[5..] == "x\r\n";
    assert a[0..4][0] != BLANK_LINE[0];
    FindIs(a, BLANK_LINE, 1);
  }

  lemma SizeRefused(framing: string -> Framing, p: Parser)
    requires p.headerParsed && p.chunked && p.chunkState.ReadSizeLine?
    ensures Run(framing, p, "x\r\n") == Outcome([], p, "", false)
  {
    var s := "x\r\n";
    assert s[1..3] == CRLF && s[..1] == "x" && s[3..] == "";
    assert s[0..2][0] != CRLF[0];
    FindIs(s, CRLF, 1);
    FindNone("x", ";");
    assert Trim("x") == "x";
    assert ParseHexSize("x") == None by { assert "x"[..0] == ""; }
  }

  lemma FindNone(s: string, pattern: string)
    requires forall i :: 0 <= i ==> !MatchesAt(s, pattern, i)
    ensures Find(s, pattern) == None
  {
  }

  lemma BodyEnds(framing: string -> Framing, p: Parser, b: string)
    requires p == START.(headerParsed := true, chunked := true, header := "H") && b == "0\r\n\r\n"
    ensures Run(framing, p, b).responses == [Response("H", "")]
  {
    assert b[1..3] == CRLF && b[..1] == "0" && b[3..] == CRLF;
    assert b[0..2][0] != CRLF[0];
    FindIs(b, CRLF, 1);
    FindNone("0", ";");
    assert Trim("0") == "0";
    assert ParseHexSize("0") == Some(0) by { assert "0"[..0] == ""; }
    var q := p.(chunkState := ReadTrailers);
    assert StepOf(framing, p, b) == Progress(q, 3, []);
    assert CRLF[..2] == CRLF && CRLF[2..] == "";
    assert StepOf(framing, q, CRLF) == Progress(q.(chunkState := Done), 2, []);
    assert StepOf(framing, q.(chunkState := Done), "") == Progress(START, 0, [Response("H", "")]);
    assert StepOf(framing, START, "") == Wait;
  }

  // ---------------------------------------------------------------- well-formed messages

  predicate NoLineBreak(s: string) {
    forall i :: 0 <= i < |s| ==> s[i] != '\r' && s[i] != '\n'
  }

  predicate AllBlank(s: string) {
    forall i :: 0 <= i < |s| ==> IsBlank(s[i])
  }

  predicate AllHex(s: string) {
    forall i :: 0 <= i < |s| ==> HexDigit(s[i]).Some?
  }

  /** The number hexadecimal digits spell. */
  function HexValue(s: string): nat
    requires AllHex(s)
  {
    if s == [] then 0 else HexValue(s[..|s| - 1]) * 16 + HexDigit(s[|s| - 1]).value
  }

  /** A size line: digits between optional blanks, and an optional extension. */
  datatype SizeLine = SizeLine(left: string, digits: string, right: string, extension: string)

  function LineText(l: SizeLine): string {
    l.left + l.digits + l.right + l.extension
  }

  predicate SizeLineOk(l: SizeLine, size: nat) {
    && AllBlank(l.left) && AllBlank(l.right)
    && l.digits != [] && AllHex(l.digits) && HexValue(l.digits) == size && size < WORD_LIMIT
    && NoLineBreak(l.extension) && (l.extension == [] || l.extension[0] == ';')
  }

  datatype Chunk = Chunk(line: SizeLine, data: string)

  predicate ChunkOk(c: Chunk) {
    c.data != [] && SizeLineOk(c.line, |c.data|)
  }

  /** Header fields and trailer fields: lines that are not empty and hold no line break. */
  predicate LinesOk(lines: seq<string>) {
    forall i :: 0 <= i < |lines| ==> lines[i] != [] && NoLineBreak(lines[i])
  }

  function Join(lines: seq<string>): string {
    if lines == [] then [] else if |lines| == 1 then lines[0] else lines[0] + CRLF + Join(lines[1..])
  }

  function ChunkText(c: Chunk): string {
    LineText(c.line) + CRLF + (c.data + CRLF)
  }

  function ChunksText(chunks: seq<Chunk>): string {
    if chunks == [] then [] else ChunkText(chunks[0]) + ChunksText(chunks[1..])
  }

  function ChunksData(chunks: seq<Chunk>): string {
    if chunks == [] then [] else chunks[0].data + ChunksData(chunks[1..])
  }

  function TrailerText(trailer: seq<string>): string {
    if trailer == [] then CRLF else Join(trailer) + BLANK_LINE
  }

  datatype Body = Plain(text: string) | InChunks(chunks: seq<Chunk>, last: SizeLine, trailer: seq<string>)

  datatype Message = Message(header: seq<string>, body: Body)

  function BodyText(body: Body): string {
    match body
    case Plain(text) => text
    case InChunks(chunks, last, trailer) => ChunksText(chunks) + (LineText(last) + CRLF + TrailerText(trailer))
  }

  function Payload(body: Body): string {
    match body
    case Plain(text) => text
    case InChunks(chunks, _, _) => ChunksData(chunks)
  }

  function MessageText(m: Message): string {
    Join(m.header) + BLANK_LINE + BodyText(m.body)
  }

  /** The message follows the grammar, and its header says how its body is framed. */
  predicate MessageOk(framing: string -> Framing, m: Message) {
    && m.header != [] && LinesOk(m.header)
    && match m.body
       case Plain(text) => framing(Join(m.header)) == Length(|text|)
       case InChunks(chunks, last, trailer) =>
         && framing(Join(m.header)) == Chunked
         && ChunksOk(chunks)
         && SizeLineOk(last, 0) && LinesOk(trailer)
  }

  // ---------------------------------------------------------------- size lines are read back

  lemma {:induction false} TrimLeftBlanks(left: string, s: string)
    requires AllBlank(left) && (s == [] || !IsBlank(s[0]))
    ensures TrimLeft(left + s) == s
  {
    if left == [] {
      assert left + s == s;
    } else {
      assert (left + s)[1..] == left[1..] + s;
      TrimLeftBlanks(left[1..], s);
    }
  }

  lemma {:induction false} TrimRightBlanks(s: string, right: string)
    requires AllBlank(right) && (s == [] || !IsBlank(s[|s| - 1]))
    ensures TrimRight(s + right) == s
  {
    if right == [] {
      assert s + right == s;
    } else {
      assert (s + right)[..|s + right| - 1] == s + right[..|right| - 1];
      TrimRightBlanks(s, right[..|right| - 1]);
    }
  }

  lemma {:induction false} ReadsHex(s: string)
    requires AllHex(s) && HexValue(s) < WORD_LIMIT
    ensures ParseHexSize(s) == Some(HexValue(s))
  {
    if s != [] {
      ReadsHex(s[..|s| - 1]);
      NoShiftOut(HexValue(s[..|s| - 1]));
    }
  }

  lemma NoShiftOut(v: nat)
    requires v * 16 < WORD_LIMIT
    ensures ShiftLeft4(v) == v * 16
  {
  }

  lemma CutsExtension(before: string, extension: string)
    requires forall i :: 0 <= i < |before| ==> before[i] != ';'
    requires extension == [] || extension[0] == ';'
    ensures CutExtension(before + extension) == before
  {
    var line := before + extension;
    forall j | 0 <= j < |before|
      ensures !MatchesAt(line, ";", j)
    {
      assert line[j..j + 1][0] == before[j];
    }
    if extension == [] {
      assert line == before;
      match Find(line, ";") case None => case Some(_) =>
    } else {
      assert line[|before|..|before| + 1] == ";";
      FindIs(line, ";", |before|);
      assert line[..|before|] == before;
    }
  }

  lemma TrimsBlanks(left: string, s: string, right: string)
    requires AllBlank(left) && AllBlank(right)
    requires s != [] && !IsBlank(s[0]) && !IsBlank(s[|s| - 1])
    ensures Trim(left + s + right) == s
  {
    assert left + s + right == left + (s + right);
    TrimLeftBlanks(left, s + right);
    TrimRightBlanks(s, right);
  }

  lemma ReadsSizeLine(l: SizeLine, size: nat)
    requires SizeLineOk(l, size)
    ensures ChunkSize(LineText(l)) == Some(size) && NoLineBreak(LineText(l))
  {
    var digits := l.digits;
    assert HexDigit(digits[0]).Some? && HexDigit(digits[|digits| - 1]).Some?;
    CutsExtension(l.left + digits + l.right, l.extension);
    TrimsBlanks(l.left, digits, l.right);
    ReadsHex(digits);
  }

  lemma LineEnd(line: string, rest: string)
    requires NoLineBreak(line)
    ensures Find(line + CRLF + rest, CRLF) == Some(|line|)
  {
    var s := line + CRLF + rest;
    assert s[|line|..|line| + 2] == CRLF;
    forall j | 0 <= j < |line|
      ensures !MatchesAt(s, CRLF, j)
    {
      assert s[j..j + 2][0] == line[j];
    }
    FindIs(s, CRLF, |line|);
  }

  /** Inside joined lines a carriage return is followed, two characters on, by the first of the next line. */
  lemma {:induction false} JoinBreaks(lines: seq<string>, j: nat)
    requires LinesOk(lines) && j < |Join(lines)|
    ensures Join(lines)[j] == '\r' ==> j + 2 < |Join(lines)| && Join(lines)[j + 2] != '\r'
  {
    if |lines| > 1 {
      var first, rest := lines[0], Join(lines[1..]);
      JoinStarts(lines[1..]);
      if j >= |first| + 2 {
        JoinBreaks(lines[1..], j - |first| - 2);
      } else if j >= |first| {
        assert Join(lines)[|first| + 1] == CRLF[1];
        assert Join(lines)[|first| + 2] == rest[0];
      }
    }
  }

  lemma JoinStarts(lines: seq<string>)
    requires lines != [] && LinesOk(lines)
    ensures Join(lines) != [] && Join(lines)[0] != '\r'
  {
    assert lines[0] != [] && lines[0][0] != '\r';
  }

  lemma BlankLineEnd(lines: seq<string>, rest: string)
    requires lines != [] && LinesOk(lines)
    ensures Find(Join(lines) + BLANK_LINE + rest, BLANK_LINE) == Some(|Join(lines)|)
  {
    var text := Join(lines);
    var s := text + BLANK_LINE + rest;
    assert s[|text|..|text| + 4] == BLANK_LINE;
    forall j | 0 <= j < |text|
      ensures !MatchesAt(s, BLANK_LINE, j)
    {
      JoinBreaks(lines, j);
      var window := s[j..j + 4];
      assert window[0] == text[j] && window[2] == s[j + 2];
      assert BLANK_LINE[0] == '\r' && BLANK_LINE[2] == '\r';
    }
    FindIs(s, BLANK_LINE, |text|);
  }

  // ---------------------------------------------------------------- messages are read back

  lemma OneStep(framing: string -> Framing, p: Parser, b: string, next: Parser, n: nat, done: seq<Response>, after: string)
    requires StepOf(framing, p, b) == Progress(next, n, done) && n <= |b| && b[n..] == after
    ensures Run(framing, p, b) == Prepend(done, Run(framing, next, after))
  {
  }

  predicate AtSizeLine(p: Parser) {
    p.headerParsed && p.chunked && p.chunkState.ReadSizeLine?
  }

  lemma SizeLineStep(framing: string -> Framing, p: Parser, l: SizeLine, size: nat, rest: string)
    requires AtSizeLine(p) && SizeLineOk(l, size)
    ensures Run(framing, p, LineText(l) + CRLF + rest) ==
      Run(framing, p.(chunkRemaining := size, chunkState := if size == 0 then ReadTrailers else ReadData), rest)
  {
    var line := LineText(l);
    var b := line + CRLF + rest;
    var next := p.(chunkRemaining := size, chunkState := if size == 0 then ReadTrailers else ReadData);
    ReadsSizeLine(l, size);
    LineEnd(line, rest);
    assert b[..|line|] == line && b[|line| + 2..] == rest;
    OneStep(framing, p, b, next, |line| + 2, [], rest);
    PrependNone(Run(framing, next, rest));
  }

  lemma DataStep(framing: string -> Framing, p: Parser, data: string, rest: string)
    requires p.headerParsed && p.chunked && p.chunkState.ReadData? && p.chunkRemaining == |data|
    ensures Run(framing, p, data + CRLF + rest) ==
      Run(framing, p.(body := p.body + data, chunkState := ReadSizeLine, chunkRemaining := 0), rest)
  {
    var b := data + CRLF + rest;
    var middle := p.(body := p.body + data, chunkState := ReadDataCRLF);
    var next := p.(body := p.body + data, chunkState := ReadSizeLine, chunkRemaining := 0);
    assert b[..|data|] == data && b[|data|..] == CRLF + rest;
    OneStep(framing, p, b, middle, |data|, [], CRLF + rest);
    assert (CRLF + rest)[..2] == CRLF && (CRLF + rest)[2..] == rest;
    OneStep(framing, middle, CRLF + rest, next, 2, [], rest);
    PrependNone(Run(framing, middle, CRLF + rest));
    PrependNone(Run(framing, next, rest));
  }

  /** One chunk adds its data to the body, whatever its extension and blanks. */
  lemma ChunkDecodes(framing: string -> Framing, p: Parser, c: Chunk, rest: string)
    requires AtSizeLine(p) && p.chunkRemaining == 0 && ChunkOk(c)
    ensures Run(framing, p, ChunkText(c) + rest) == Run(framing, WithBody(p, c.data), rest)
  {
    var after := c.data + CRLF + rest;
    assert ChunkText(c) + rest == LineText(c.line) + CRLF + after;
    SizeLineStep(framing, p, c.line, |c.data|, after);
    DataStep(framing, p.(chunkRemaining := |c.data|, chunkState := ReadData), c.data, rest);
  }

  predicate ChunksOk(chunks: seq<Chunk>) {
    forall i {:trigger chunks[i]} :: 0 <= i < |chunks| ==> ChunkOk(chunks[i])
  }

  /** The parser after chunks have added their data to its body. */
  function WithBody(p: Parser, data: string): Parser {
    p.(body := p.body + data)
  }

  lemma FirstChunk(p: Parser, chunks: seq<Chunk>, rest: string)
    requires chunks != []
    ensures ChunksText(chunks) + rest == ChunkText(chunks[0]) + (ChunksText(chunks[1..]) + rest)
    ensures WithBody(WithBody(p, chunks[0].data), ChunksData(chunks[1..])) == WithBody(p, ChunksData(chunks))
  {
    Regroup(ChunkText(chunks[0]), ChunksText(chunks[1..]), rest);
    Regroup(p.body, chunks[0].data, ChunksData(chunks[1..]));
  }

  lemma Regroup(a: string, b: string, c: string)
    ensures (a + b) + c == a + (b + c)
  {
  }

  /** Chunks decode to their data, whatever their sizes. */
  lemma {:induction false} ChunksDecode(framing: string -> Framing, p: Parser, chunks: seq<Chunk>, rest: string)
    requires AtSizeLine(p) && p.chunkRemaining == 0 && ChunksOk(chunks)
    ensures Run(framing, p, ChunksText(chunks) + rest) == Run(framing, WithBody(p, ChunksData(chunks)), rest)
    decreases |chunks|
  {
    if chunks == [] {
      assert ChunksText(chunks) + rest == rest && p.body + [] == p.body;
    } else {
      FirstChunk(p, chunks, rest);
      ChunkDecodes(framing, p, chunks[0], ChunksText(chunks[1..]) + rest);
      ChunksDecode(framing, WithBody(p, chunks[0].data), chunks[1..], rest);
    }
  }

  /** Any trailer ends the response, and not a byte of the next one is touched. */
  lemma TrailerEnds(framing: string -> Framing, p: Parser, trailer: seq<string>, rest: string)
    requires p.headerParsed && p.chunked && p.chunkState.ReadTrailers? && LinesOk(trailer)
    ensures Run(framing, p, TrailerText(trailer) + rest) == Prepend([Response(p.header, p.body)], Run(framing, START, rest))
  {
    var b := TrailerText(trailer) + rest;
    var done := p.(chunkState := Done);
    if trailer == [] {
      assert b[..2] == CRLF && b[2..] == rest;
      OneStep(framing, p, b, done, 2, [], rest);
    } else {
      JoinStarts(trailer);
      BlankLineEnd(trailer, rest);
      assert b == Join(trailer) + BLANK_LINE + rest;
      assert b[..2][0] == Join(trailer)[0];
      assert b[|Join(trailer)| + 4..] == rest;
      OneStep(framing, p, b, done, |Join(trailer)| + 4, [], rest);
    }
    PrependNone(Run(framing, done, rest));
    assert rest[0..] == rest;
    OneStep(framing, done, rest, START, 0, [Response(p.header, p.body)], rest);
  }

  /** The last chunk and any trailer end the response. */
  lemma LastChunkEnds(framing: string -> Framing, p: Parser, last: SizeLine, trailer: seq<string>, rest: string)
    requires AtSizeLine(p) && SizeLineOk(last, 0) && LinesOk(trailer)
    ensures Run(framing, p, LineText(last) + CRLF + TrailerText(trailer) + rest) ==
      Prepend([Response(p.header, p.body)], Run(framing, START, rest))
  {
    var b := TrailerText(trailer) + rest;
    assert LineText(last) + CRLF + TrailerText(trailer) + rest == LineText(last) + CRLF + b;
    SizeLineStep(framing, p, last, 0, b);
    TrailerEnds(framing, p.(chunkRemaining := 0, chunkState := ReadTrailers), trailer, rest);
  }

  predicate AfterHeader(p: Parser) {
    p.headerParsed && p.chunkState.ReadSizeLine? && p.chunkRemaining == 0 && p.body == ""
  }

  lemma PlainBodyDecodes(framing: string -> Framing, p: Parser, text: string, rest: string)
    requires AfterHeader(p) && !p.chunked && p.contentLength == |text|
    ensures Run(framing, p, text + rest) == Prepend([Response(p.header, text)], Run(framing, START, rest))
  {
    var b := text + rest;
    assert b[..|text|] == text && b[|text|..] == rest;
    OneStep(framing, p, b, START, |text|, [Response(p.header, text)], rest);
  }

  lemma ChunkedBodyDecodes(framing: string -> Framing, p: Parser, chunks: seq<Chunk>, last: SizeLine, trailer: seq<string>, rest: string)
    requires AfterHeader(p) && p.chunked
    requires ChunksOk(chunks)
    requires SizeLineOk(last, 0) && LinesOk(trailer)
    ensures Run(framing, p, BodyText(InChunks(chunks, last, trailer)) + rest) ==
      Prepend([Response(p.header, ChunksData(chunks))], Run(framing, START, rest))
  {
    var end := LineText(last) + CRLF + TrailerText(trailer) + rest;
    assert BodyText(InChunks(chunks, last, trailer)) + rest == ChunksText(chunks) + end;
    assert p.body + ChunksData(chunks) == ChunksData(chunks);
    ChunksDecode(framing, p, chunks, end);
    LastChunkEnds(framing, WithBody(p, ChunksData(chunks)), last, trailer, rest);
  }

  /** The step a complete header block causes. */
  function HeaderRead(f: Framing, text: string): Step {
    match f
    case BadHeader => Wait
    case Chunked => Progress(START.(headerParsed := true, chunked := true, header := text), |text| + 4, [])
    case Length(n) =>
      if n == 0 then Progress(START, |text| + 4, [Response(text, "")])
      else Progress(START.(headerParsed := true, contentLength := n, header := text), |text| + 4, [])
  }

  lemma HeaderStepIs(framing: string -> Framing, header: seq<string>, after: string)
    requires header != [] && LinesOk(header)
    ensures var text := Join(header);
      var b := text + BLANK_LINE + after;
      && b[|text| + 4..] == after
      && StepOf(framing, START, b) == HeaderRead(framing(text), text)
  {
    var text := Join(header);
    var b := text + BLANK_LINE + after;
    BlankLineEnd(header, after);
    assert b[..|text|] == text;
  }

  /** A well-formed message, followed by anything, gives one response with its header and payload. */
  lemma MessageDecodes(framing: string -> Framing, m: Message, rest: string)
    requires MessageOk(framing, m)
    ensures Run(framing, START, MessageText(m) + rest) ==
      Prepend([Response(Join(m.header), Payload(m.body))], Run(framing, START, rest))
  {
    var header := Join(m.header);
    var after := BodyText(m.body) + rest;
    var b := header + BLANK_LINE + after;
    assert MessageText(m) + rest == b;
    HeaderStepIs(framing, m.header, after);
    match m.body
    case Plain(text) =>
      if text == [] {
        assert after == rest;
        OneStep(framing, START, b, START, |header| + 4, [Response(header, "")], rest);
      } else {
        var p := START.(headerParsed := true, contentLength := |text|, header := header);
        OneStep(framing, START, b, p, |header| + 4, [], after);
        PrependNone(Run(framing, p, after));
        PlainBodyDecodes(framing, p, text, rest);
      }
    case InChunks(chunks, last, trailer) =>
      var p := START.(headerParsed := true, chunked := true, header := header);
      OneStep(framing, START, b, p, |header| + 4, [], after);
      PrependNone(Run(framing, p, after));
      ChunkedBodyDecodes(framing, p, chunks, last, trailer, rest);
  }

  function StreamText(messages: seq<Message>): string {
    if messages == [] then [] else MessageText(messages[0]) + StreamText(messages[1..])
  }

  function Responses(messages: seq<Message>): seq<Response> {
    seq(|messages|, i requires 0 <= i < |messages| => Response(Join(messages[i].header), Payload(messages[i].body)))
  }

  lemma FirstResponse(messages: seq<Message>)
    requires messages != []
    ensures [Response(Join(messages[0].header), Payload(messages[0].body))] + Responses(messages[1..]) == Responses(messages)
  {
  }

  /** A pipelined stream of well-formed messages gives exactly their responses, and nothing is left over. */
  lemma {:induction false} StreamDecodes(framing: string -> Framing, messages: seq<Message>)
    requires forall i :: 0 <= i < |messages| ==> MessageOk(framing, messages[i])
    ensures Run(framing, START, StreamText(messages)) == Outcome(Responses(messages), START, "", true)
  {
    if messages == [] {
      assert StepOf(framing, START, "") == Wait;
    } else {
      StreamDecodes(framing, messages[1..]);
      MessageDecodes(framing, messages[0], StreamText(messages[1..]));
      FirstResponse(messages);
    }
  }

  /** However a well-formed pipelined stream is split into reads, its responses come out the same. */
  lemma PipelineSurvivesAnySplit(framing: string -> Framing, messages: seq<Message>, parts: seq<string>)
    requires forall i :: 0 <= i < |messages| ==> MessageOk(framing, messages[i])
    requires Received(parts) == StreamText(messages)
    ensures AfterReads(framing, parts) == Outcome(Responses(messages), START, "", true)
  {
    StreamDecodes(framing, messages);
    AnySplitYieldsTheSameResponses(framing, parts);
  }

  // ---------------------------------------------------------------- the parser object

  lemma StepTo(framing: string -> Framing, p: Parser, b: string, next: Parser, n: nat)
    requires StepOf(framing, p, b) == Progress(next, n, [])
    ensures n <= |b| && (n > 0 || Rank(next) < Rank(p)) && Run(framing, p, b) == Run(framing, next, b[n..])
  {
    StepAdvances(framing, p, b);
    PrependNone(Run(framing, next, b[n..]));
  }

  datatype ChunkParseResult = BodyDone | NeedMoreData | ChunkError

  class HttpsClientResponseParser {
    const framing: string -> Framing
    var buffer: string
    var headerParsed: bool
    var contentLength: nat
    var chunked: bool
    var chunkState: ChunkState
    var chunkRemaining: nat
    var header: string
    var body: string

    function State(): Parser
      reads this
    {
      Parser(headerParsed, contentLength, chunked, chunkState, chunkRemaining, header, body)
    }

    /** What parsing everything buffered would give. */
    ghost function Rest(): Outcome
      reads this
    {
      Run(framing, State(), buffer)
    }

    constructor (framing: string -> Framing)
      ensures this.framing == framing && State() == START && buffer == ""
    {
      this.framing := framing;
      buffer, headerParsed, contentLength, chunked := "", false, 0, false;
      chunkState, chunkRemaining, header, body := ReadSizeLine, 0, "", "";
    }

    method AppendData(data: string)
      modifies this`buffer
      ensures buffer == old(buffer) + data
    {
      buffer := buffer + data;
    }

    method ResetState()
      modifies this
      ensures State() == START && buffer == old(buffer)
    {
      headerParsed, contentLength, chunked := false, 0, false;
      chunkState, chunkRemaining, header, body := ReadSizeLine, 0, "", "";
    }

    static method ReadHexSize(s: string) returns (size: Option<nat>)
      ensures size == ParseHexSize(s)
    {
      var v, i := 0, 0;
      while i < |s|
        invariant i <= |s| && ParseHexSize(s[..i]) == Some(v)
      {
        assert s[..i + 1][..i] == s[..i];
        var d := HexDigit(s[i]);
        if d.None? {
          HexStops(s, i + 1);
          return None;
        }
        v := ShiftLeft4(v) + d.value;
        i := i + 1;
      }
      assert s[..i] == s;
      size := Some(v);
    }

    /** What a chunk result says about the outcome that was expected before it. */
    ghost predicate Stopped(r: ChunkParseResult, before: Outcome)
      reads this
    {
      match r
      case BodyDone => chunkState.Done? && Rest() == before
      case NeedMoreData => StepOf(framing, State(), buffer) == Wait && Rest() == before
      case ChunkError => before == Outcome([], State(), buffer, false)
    }

    /** Reads a size line; None means that the chunk loop goes on. */
    method TakeSizeLine() returns (r: Option<ChunkParseResult>)
      requires headerParsed && chunked && chunkState.ReadSizeLine?
      modifies this`buffer, this`chunkState, this`chunkRemaining
      ensures |buffer| <= |old(buffer)|
      ensures r.Some? ==> Stopped(r.value, old(Rest()))
      ensures r.None? ==> |buffer| < |old(buffer)| && Rest() == old(Rest())
    {
      ghost var p, b := State(), buffer;
      var rn := Find(buffer, CRLF);
      if rn.None? { return Some(NeedMoreData); }
      var sizeLine := buffer[..rn.value];
      buffer := buffer[rn.value + 2..];
      sizeLine := Trim(CutExtension(sizeLine));
      if sizeLine == [] { return Some(ChunkError); }
      var size := ReadHexSize(sizeLine);
      if size.None? { return Some(ChunkError); }
      chunkRemaining := size.value;
      chunkState := if chunkRemaining == 0 then ReadTrailers else ReadData;
      StepTo(framing, p, b, State(), rn.value + 2);
      r := None;
    }

    method TakeTrailers() returns (r: ChunkParseResult)
      requires headerParsed && chunked && chunkState.ReadTrailers?
      modifies this`buffer, this`chunkState
      ensures |buffer| <= |old(buffer)|
      ensures Stopped(r, old(Rest()))
    {
      ghost var p, b := State(), buffer;
      if |buffer| < 2 { return NeedMoreData; }
      if buffer[..2] == CRLF {
        buffer := buffer[2..];
        chunkState := Done;
        StepTo(framing, p, b, State(), 2);
        return BodyDone;
      }
      var end := Find(buffer, BLANK_LINE);
      if end.None? { return NeedMoreData; }
      buffer := buffer[end.value + 4..];
      chunkState := Done;
      StepTo(framing, p, b, State(), end.value + 4);
      return BodyDone;
    }

    /** Runs the chunk states until the body is complete, bytes are missing or a chunk is malformed. */
    method ParseChunkedBody() returns (r: ChunkParseResult)
      requires headerParsed && chunked
      modifies this
      ensures headerParsed && chunked && header == old(header) && |buffer| <= |old(buffer)|
      ensures Stopped(r, old(Rest()))
    {
      while true
        invariant headerParsed && chunked && header == old(header) && |buffer| <= |old(buffer)|
        invariant Rest() == old(Rest())
        decreases |buffer|, Rank(State())
      {
        ghost var p, b := State(), buffer;
        match chunkState {
          case ReadSizeLine =>
            var stop := TakeSizeLine();
            if stop.Some? { return stop.value; }
          case ReadData =>
            if |buffer| < chunkRemaining { return NeedMoreData; }
            body := body + buffer[..chunkRemaining];
            buffer := buffer[chunkRemaining..];
            chunkState := ReadDataCRLF;
            StepTo(framing, p, b, State(), chunkRemaining);
          case ReadDataCRLF =>
            if |buffer| < 2 { return NeedMoreData; }
            if buffer[..2] != CRLF {
              assert b[0..] == b;
              return ChunkError;
            }
            buffer := buffer[2..];
            chunkState, chunkRemaining := ReadSizeLine, 0;
            StepTo(framing, p, b, State(), 2);
          case ReadTrailers =>
            r := TakeTrailers();
            return r;
          case Done =>
            return BodyDone;
        }
      }
    }

    /** Reads a header block, if one is buffered; a body of length zero completes its response at once. */
    method ParseHeaderBlock() returns (read: bool, done: seq<Response>)
      requires !headerParsed
      modifies this
      ensures Prepend(done, Rest()) == old(Rest())
      ensures read ==> |buffer| < |old(buffer)| && headerParsed == (done == [])
      ensures !read ==> done == [] && StepOf(framing, State(), buffer) == Wait
    {
      ghost var p, b := State(), buffer;
      var pos := Find(buffer, BLANK_LINE);
      if pos.None? {
        PrependNone(Rest());
        return false, [];
      }
      var block := buffer[..pos.value];
      var f := framing(block);
      if f.BadHeader? {
        PrependNone(Rest());
        return false, [];
      }
      header, headerParsed := block, true;
      chunked, contentLength := f.Chunked?, if f.Length? then f.count else 0;
      buffer := buffer[pos.value + 4..];
      read := true;
      if f == Length(0) {
        done := [Response(header, "")];
        ResetState();
      } else {
        done := [];
        StepTo(framing, p, b, State(), pos.value + 4);
        PrependNone(Rest());
      }
    }

    /** Reads the body of the header that was read, if all of it is buffered. */
    method ParseBody() returns (read: bool, done: seq<Response>)
      requires headerParsed
      modifies this
      ensures read ==> |buffer| <= |old(buffer)| && !headerParsed && Prepend(done, Rest()) == old(Rest())
      ensures !read ==> done == [] && Outcome([], State(), buffer, old(Rest()).ok) == old(Rest())
    {
      if chunked {
        var r := ParseChunkedBody();
        if !r.BodyDone? { return false, []; }
        assert buffer[0..] == buffer;
      } else {
        if |buffer| < contentLength { return false, []; }
        body := buffer[..contentLength];
        buffer := buffer[contentLength..];
      }
      read, done := true, [Response(header, body)];
      ResetState();
    }

    /** Returns every response the buffered bytes complete, and keeps the bytes and the state they leave. */
    method ParseAll() returns (responses: seq<Response>)
      modifies this
      ensures responses == old(Rest()).responses
      ensures State() == old(Rest()).parser && buffer == old(Rest()).rest
    {
      responses := [];
      var more := true;
      PrependNone(Rest());
      while more
        invariant more ==> Prepend(responses, Rest()) == old(Rest())
        invariant !more ==> Outcome(responses, State(), buffer, old(Rest()).ok) == old(Rest())
        decreases more, |buffer|, headerParsed
      {
        var done;
        if !headerParsed {
          more, done := ParseHeaderBlock();
        } else {
          more, done := ParseBody();
        }
        PrependTwice(responses, done, Rest());
        responses := responses + done;
      }
    }
  }

  lemma {:induction false} HexStops(s: string, i: nat)
    requires i <= |s| && ParseHexSize(s[..i]) == None
    ensures ParseHexSize(s) == None
  {
    if i < |s| {
      assert s[..|s| - 1][..i] == s[..i];
      HexStops(s[..|s| - 1], i);
    } else {
      assert s[..i] == s;
    }
  }

  /** A connection: each read is appended, then everything buffered is parsed. */
  method ReceiveAll(framing: string -> Framing, parts: seq<string>) returns (responses: seq<Response>)
    ensures responses == AfterReads(framing, parts).responses
  {
    var parser := new HttpsClientResponseParser(framing);
    responses := [];
    var i := 0;
    while i < |parts|
      invariant i <= |parts| && parser.framing == framing
      invariant var r := AfterReads(framing, parts[..i]);
        responses == r.responses && parser.State() == r.parser && parser.buffer == r.rest
    {
      assert parts[..i + 1][..i] == parts[..i];
      parser.AppendData(parts[i]);
      var more := parser.ParseAll();
      responses := responses + more;
      i := i + 1;
    }
    assert parts[..i] == parts;
  }
}
